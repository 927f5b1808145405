/**
 * The older survey store (src/db/SurveyDB.js): insert, lookup by id, and the
 * public and secured search/count queries. A search answers survey ids,
 * ordered by id descending; its count uses the same WHERE without paging.
 */
module SurveyDB {
  import opened Ids
  import opened Seqs
  import opened Rows
  import opened Filters
  import opened Transactions

  // ---------------------------------------------------------------------------
  // createSurvey
  // ---------------------------------------------------------------------------

  /** The row the insert adds: a generated id, the hyphen-stripped owner and
      the insertion time as `created`. */
  function NewSurveyRow(t: Tables, title: string, description: string, startDate: Option<Date>, endDate: Option<Date>,
                        secured: bool, userId: string, now: Date): SurveyRow
  {
    SurveyRow(FreshKey(t), title, description, startDate, endDate, secured, Normalize(userId), now)
  }

  /** An appended survey with a fresh id keeps survey ids unique. */
  lemma AppendFreshSurvey(t: Tables, row: SurveyRow)
    requires WellFormed(t) && Unused(t, row.id)
    ensures WellFormed(t.(surveys := t.surveys + [row]))
  {
    var s := t.surveys + [row];
    forall i, j | 0 <= i < j < |s| ensures s[i].id != s[j].id {
      if j == |s| - 1 {
        assert s[i] in t.surveys;
      } else {
        assert s[i] == t.surveys[i] && s[j] == t.surveys[j];
      }
    }
  }

  /** INSERT ... RETURNING id: one new row, found by its id afterwards and by
      nothing else; every other table is left alone. */
  method CreateSurvey(db: Database, title: string, description: string, startDate: Option<Date>, endDate: Option<Date>,
                      secured: bool, userId: string, now: Date) returns (id: string)
    requires db.Valid()
    modifies db
    ensures db.Valid() && db.saved == old(db.saved)
    ensures id == FreshKey(old(db.tables)) && Unused(old(db.tables), id)
    ensures db.tables == old(db.tables).(surveys := old(db.tables).surveys
              + [NewSurveyRow(old(db.tables), title, description, startDate, endDate, secured, userId, now)])
    ensures GetSurvey(db.tables, id) == [NewSurveyRow(old(db.tables), title, description, startDate, endDate, secured, userId, now)]
  {
    var t := db.tables;
    var row := NewSurveyRow(t, title, description, startDate, endDate, secured, userId, now);
    FreshKeyUnused(t);
    AppendFreshSurvey(t, row);
    db.Write(t.(surveys := t.surveys + [row]));
    id := row.id;
    NormalizeKeepsKeys(id);
    FilterAppend(t.surveys, [row], HasId(id));
    FilterKeepsNone(t.surveys, HasId(id));
  }

  // ---------------------------------------------------------------------------
  // getSurvey
  // ---------------------------------------------------------------------------

  /** SELECT * FROM surveys WHERE id = the hyphen-stripped id. */
  function GetSurvey(t: Tables, id: string): (r: seq<SurveyRow>)
    ensures forall s :: s in r <==> s in t.surveys && s.id == Normalize(id)
  {
    SurveysWithId(t, Normalize(id))
  }

  /** The lookup answers at most one row; the written and the hyphen-stripped
      form of an id find the same row. */
  lemma GetSurveyAtMostOne(t: Tables, id: string)
    requires WellFormed(t)
    ensures |GetSurvey(t, id)| <= 1
    ensures GetSurvey(t, Normalize(id)) == GetSurvey(t, id)
  {
    AtMostOneSurvey(t, Normalize(id));
    NormalizeIdempotent(id);
  }

  // ---------------------------------------------------------------------------
  // Search and count
  // ---------------------------------------------------------------------------

  /** The filter values of the older queries; the description is not one of them. */
  datatype Criteria = Criteria(title: Option<string>, startDate: Option<Date>, endDate: Option<Date>)

  /** `args.title IS NULL OR surveys.title LIKE args.title`, the value not
      wrapped in `%`: a title free of wildcards matches only itself. */
  predicate TitleMatches(s: SurveyRow, title: Option<string>)
  {
    title.None? || s.title == title.value
  }

  predicate CriteriaMatch(c: Criteria, s: SurveyRow)
  {
    TitleMatches(s, c.title) && StartsAfter(s, c.startDate) && EndsBeforeStartFilter(s, c.startDate, c.endDate)
  }

  /** The public WHERE: `secured is false` and the criteria. */
  predicate PublicMatches(c: Criteria, s: SurveyRow)
  {
    !s.secured && CriteriaMatch(c, s)
  }

  /** The secured WHERE: the join with an existing user row whose id is the
      hyphen-stripped user id, `secured is true`, and the criteria. */
  predicate SecuredMatches(t: Tables, userKey: string, c: Criteria, s: SurveyRow)
  {
    UserExists(t, userKey) && s.userId == userKey && s.secured && CriteriaMatch(c, s)
  }

  /** ORDER BY id DESC. */
  function IdDescending(a: SurveyRow, b: SurveyRow): bool
  {
    a.id == b.id || KeyLess(b.id, a.id)
  }

  lemma IdDescendingIsTotal()
    ensures TotalPreorder(IdDescending)
  {
    forall a: SurveyRow, b: SurveyRow ensures IdDescending(a, b) || IdDescending(b, a) {
      if a.id != b.id {
        KeyLessTotal(a.id, b.id);
      }
    }
    forall a: SurveyRow, b: SurveyRow, c: SurveyRow | IdDescending(a, b) && IdDescending(b, c)
      ensures IdDescending(a, c)
    {
      if a.id != b.id && b.id != c.id {
        KeyLessTransitive(c.id, b.id, a.id);
      }
    }
  }

  /** The `id` column of each row, in order. */
  function IdsOf(rows: seq<SurveyRow>): (r: seq<string>)
    ensures |r| == |rows| && forall i :: 0 <= i < |rows| ==> r[i] == rows[i].id
  {
    seq(|rows|, i requires 0 <= i < |rows| => rows[i].id)
  }

  function PublicRows(t: Tables, c: Criteria): (r: seq<SurveyRow>)
    ensures forall s :: s in r <==> s in t.surveys && PublicMatches(c, s)
  {
    Filter(t.surveys, (s: SurveyRow) => PublicMatches(c, s))
  }

  function SecuredRows(t: Tables, userId: string, c: Criteria): (r: seq<SurveyRow>)
    ensures forall s :: s in r <==> s in t.surveys && SecuredMatches(t, Normalize(userId), c, s)
  {
    Filter(t.surveys, (s: SurveyRow) => SecuredMatches(t, Normalize(userId), c, s))
  }

  /** searchPublicSurveys: the ids of one page of matching public surveys. */
  function SearchPublicSurveys(t: Tables, c: Criteria, pageNumber: nat, pageSize: nat): seq<string>
  {
    IdsOf(Page(SortBy(PublicRows(t, c), IdDescending), pageNumber, pageSize))
  }

  /** countPublicSurveys. */
  function CountPublicSurveys(t: Tables, c: Criteria): nat
  {
    |PublicRows(t, c)|
  }

  /** searchSecuredSurveys: the ids of one page of the user's matching secured surveys. */
  function SearchSecuredSurveys(t: Tables, c: Criteria, pageNumber: nat, pageSize: nat, userId: string): seq<string>
  {
    IdsOf(Page(SortBy(SecuredRows(t, userId, c), IdDescending), pageNumber, pageSize))
  }

  /** countSecuredSurveys. */
  function CountSecuredSurveys(t: Tables, c: Criteria, userId: string): nat
  {
    |SecuredRows(t, userId, c)|
  }

  /** What one page of an ORDER BY id DESC query over `rows` holds: at most
      `pageSize` ids, each the id of one of the rows, in non-increasing order,
      and exactly as many as remain after the offset. */
  lemma PageOfIds(rows: seq<SurveyRow>, pageNumber: nat, pageSize: nat)
    ensures var r := IdsOf(Page(SortBy(rows, IdDescending), pageNumber, pageSize));
      && |r| <= pageSize
      && (forall i :: 0 <= i < |r| ==> exists s :: s in rows && s.id == r[i])
      && (forall i, j :: 0 <= i < j < |r| ==> r[i] == r[j] || KeyLess(r[j], r[i]))
      && |r| == if |rows| <= pageNumber * pageSize then 0
                else if |rows| - pageNumber * pageSize < pageSize then |rows| - pageNumber * pageSize
                else pageSize
  {
    var sorted := SortBy(rows, IdDescending);
    var page := Page(sorted, pageNumber, pageSize);
    SortByMembers(rows, IdDescending);
    IdDescendingIsTotal();
    SortBySorted(rows, IdDescending);
    PageWithin(sorted, pageNumber, pageSize);
    PageKeepsOrder(sorted, pageNumber, pageSize, IdDescending);
    var r := IdsOf(page);
    forall i | 0 <= i < |r| ensures exists s :: s in rows && s.id == r[i] {
      assert page[i] in page;
    }
    forall i, j | 0 <= i < j < |r| ensures r[i] == r[j] || KeyLess(r[j], r[i]) {
      assert IdDescending(page[i], page[j]);
    }
  }

  /** Public search and count see only unsecured surveys: with unique ids,
      every id a page holds belongs to an unsecured survey meeting the
      criteria, and the count is the number of such surveys. */
  lemma PublicSearchSound(t: Tables, c: Criteria, pageNumber: nat, pageSize: nat)
    requires WellFormed(t)
    ensures var r := SearchPublicSurveys(t, c, pageNumber, pageSize);
      && |r| <= pageSize
      && (forall s :: s in t.surveys && s.id in r ==> !s.secured && CriteriaMatch(c, s))
      && (forall i, j :: 0 <= i < j < |r| ==> r[i] == r[j] || KeyLess(r[j], r[i]))
  {
    var r := SearchPublicSurveys(t, c, pageNumber, pageSize);
    PageOfIds(PublicRows(t, c), pageNumber, pageSize);
    forall s | s in t.surveys && s.id in r ensures !s.secured && CriteriaMatch(c, s) {
      var i :| 0 <= i < |r| && r[i] == s.id;
      var s' :| s' in PublicRows(t, c) && s'.id == r[i];
      SameIdSameSurvey(t.surveys, s, s');
    }
  }

  /** Secured surveys are invisible to the public queries: removing every
      secured survey changes neither a public page nor the public count. */
  lemma SecuredSurveysInvisible(t: Tables, c: Criteria, pageNumber: nat, pageSize: nat)
    ensures var open := t.(surveys := Filter(t.surveys, (s: SurveyRow) => !s.secured));
      && SearchPublicSurveys(open, c, pageNumber, pageSize) == SearchPublicSurveys(t, c, pageNumber, pageSize)
      && CountPublicSurveys(open, c) == CountPublicSurveys(t, c)
  {
    FilterNarrowing(t.surveys, (s: SurveyRow) => !s.secured, (s: SurveyRow) => PublicMatches(c, s));
  }

  /** Secured search and count see only the user's own secured surveys: every
      id a page holds belongs to a secured survey of the hyphen-stripped user,
      and the surveys of other owners can be removed without changing either. */
  lemma SecuredSearchSound(t: Tables, c: Criteria, pageNumber: nat, pageSize: nat, userId: string)
    requires WellFormed(t)
    ensures var r := SearchSecuredSurveys(t, c, pageNumber, pageSize, userId);
      && |r| <= pageSize
      && (forall s :: s in t.surveys && s.id in r ==> s.secured && s.userId == Normalize(userId) && CriteriaMatch(c, s))
      && (forall i, j :: 0 <= i < j < |r| ==> r[i] == r[j] || KeyLess(r[j], r[i]))
    ensures var own := t.(surveys := Filter(t.surveys, (s: SurveyRow) => s.userId == Normalize(userId)));
      && SearchSecuredSurveys(own, c, pageNumber, pageSize, userId) == SearchSecuredSurveys(t, c, pageNumber, pageSize, userId)
      && CountSecuredSurveys(own, c, userId) == CountSecuredSurveys(t, c, userId)
  {
    var r := SearchSecuredSurveys(t, c, pageNumber, pageSize, userId);
    PageOfIds(SecuredRows(t, userId, c), pageNumber, pageSize);
    forall s | s in t.surveys && s.id in r ensures s.secured && s.userId == Normalize(userId) && CriteriaMatch(c, s) {
      var i :| 0 <= i < |r| && r[i] == s.id;
      var s' :| s' in SecuredRows(t, userId, c) && s'.id == r[i];
      SameIdSameSurvey(t.surveys, s, s');
    }
    var own := t.(surveys := Filter(t.surveys, (s: SurveyRow) => s.userId == Normalize(userId)));
    FilterNarrowing(t.surveys, (s: SurveyRow) => s.userId == Normalize(userId),
                    (s: SurveyRow) => SecuredMatches(t, Normalize(userId), c, s));
    FilterSamePredicate(own.surveys, (s: SurveyRow) => SecuredMatches(own, Normalize(userId), c, s),
                        (s: SurveyRow) => SecuredMatches(t, Normalize(userId), c, s));
  }

  /** A title filter free of wildcards selects exactly the surveys with that title. */
  lemma TitleIsExactMatch(t: Tables, title: string, startDate: Option<Date>, endDate: Option<Date>)
    ensures forall s :: s in PublicRows(t, Criteria(Some(title), startDate, endDate)) ==> s.title == title
    ensures forall s :: s in t.surveys && !s.secured && s.title == title
              ==> (s in PublicRows(t, Criteria(Some(title), startDate, endDate))
                   <==> StartsAfter(s, startDate) && EndsBeforeStartFilter(s, startDate, endDate))
  {
  }

  /** Each count is the number of rows its search selects without paging: a
      page holds exactly what remains of the count after the offset, and
      every counted survey's id is on some page. */
  lemma CountMatchesSearch(t: Tables, c: Criteria, userId: string, pageNumber: nat, pageSize: nat)
    ensures var n := CountPublicSurveys(t, c);
      |SearchPublicSurveys(t, c, pageNumber, pageSize)| ==
        if n <= pageNumber * pageSize then 0 else if n - pageNumber * pageSize < pageSize then n - pageNumber * pageSize else pageSize
    ensures var n := CountSecuredSurveys(t, c, userId);
      |SearchSecuredSurveys(t, c, pageNumber, pageSize, userId)| ==
        if n <= pageNumber * pageSize then 0 else if n - pageNumber * pageSize < pageSize then n - pageNumber * pageSize else pageSize
  {
    PageOfIds(PublicRows(t, c), pageNumber, pageSize);
    PageOfIds(SecuredRows(t, userId, c), pageNumber, pageSize);
  }

  /** Every survey the public count includes is on some page of the public search. */
  lemma PublicPagesComplete(t: Tables, c: Criteria, pageSize: nat, s: SurveyRow)
    requires pageSize > 0 && s in t.surveys && PublicMatches(c, s)
    ensures exists n: nat :: s.id in SearchPublicSurveys(t, c, n, pageSize)
  {
    var sorted := SortBy(PublicRows(t, c), IdDescending);
    SortByMembers(PublicRows(t, c), IdDescending);
    PagesCover(sorted, pageSize, s);
    var n: nat :| s in Page(sorted, n, pageSize);
    var page := Page(sorted, n, pageSize);
    var i :| 0 <= i < |page| && page[i] == s;
    assert SearchPublicSurveys(t, c, n, pageSize)[i] == s.id;
  }

  /** The end filter compares with the start filter value: given alone it
      empties the result. */
  lemma EndFilterAloneSelectsNothing(t: Tables, title: Option<string>, end: Date, userId: string)
    ensures CountPublicSurveys(t, Criteria(title, None, Some(end))) == 0
    ensures CountSecuredSurveys(t, Criteria(title, None, Some(end)), userId) == 0
  {
    var c := Criteria(title, None, Some(end));
    FilterKeepsNone(t.surveys, (s: SurveyRow) => PublicMatches(c, s));
    FilterKeepsNone(t.surveys, (s: SurveyRow) => SecuredMatches(t, Normalize(userId), c, s));
  }
}
