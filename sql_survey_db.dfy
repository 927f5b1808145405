/**
 * The newer survey store (src/db/sql/SurveyDB.ts): owner-restricted update,
 * delete and lookup, the aggregate read, and the parameterised search and
 * count. Every id is normalized before it reaches a query.
 */
module SqlSurveyDB {
  import opened Ids
  import opened Seqs
  import opened Rows
  import opened Filters
  import opened Transactions

  // ---------------------------------------------------------------------------
  // Ownership: the rows a survey id and a user id select together
  // ---------------------------------------------------------------------------

  /** `id = survey AND id IN (surveys of user, joined with an existing user row)`. */
  predicate OwnedTarget(t: Tables, surveyKey: string, userKey: string, s: SurveyRow)
  {
    s.id == surveyKey && s.userId == userKey && UserExists(t, userKey)
  }

  function OwnedTargets(t: Tables, surveyKey: string, userKey: string): (r: seq<SurveyRow>)
    ensures forall s :: s in r <==> s in t.surveys && OwnedTarget(t, surveyKey, userKey, s)
  {
    Filter(t.surveys, (s: SurveyRow) => OwnedTarget(t, surveyKey, userKey, s))
  }

  // ---------------------------------------------------------------------------
  // updateSurvey
  // ---------------------------------------------------------------------------

  /** The five columns the update replaces. */
  datatype SurveyFields = SurveyFields(title: string, description: string, startDate: Option<Date>, endDate: Option<Date>, secured: bool)

  function Updated(t: Tables, surveyKey: string, userKey: string, f: SurveyFields): seq<SurveyRow>
  {
    seq(|t.surveys|, i requires 0 <= i < |t.surveys| =>
      var s := t.surveys[i];
      if OwnedTarget(t, surveyKey, userKey, s)
      then s.(title := f.title, description := f.description, startDate := f.startDate, endDate := f.endDate, secured := f.secured)
      else s)
  }

  /** The update touches only the row the caller owns, and in it only title,
      description, start_date, end_date and secured; id, owner and creation
      time are kept. */
  lemma UpdateTouchesOnlyOwnedRow(t: Tables, surveyKey: string, userKey: string, f: SurveyFields)
    ensures |Updated(t, surveyKey, userKey, f)| == |t.surveys|
    ensures forall i :: 0 <= i < |t.surveys| ==>
      var (old_, new_) := (t.surveys[i], Updated(t, surveyKey, userKey, f)[i]);
      && new_.id == old_.id && new_.userId == old_.userId && new_.created == old_.created
      && (!OwnedTarget(t, surveyKey, userKey, old_) ==> new_ == old_)
      && (OwnedTarget(t, surveyKey, userKey, old_) ==>
            new_.title == f.title && new_.description == f.description && new_.startDate == f.startDate
            && new_.endDate == f.endDate && new_.secured == f.secured)
  {
  }

  /** A caller who owns no survey with that id changes nothing, exactly as
      for an id that does not exist. */
  lemma {:induction false} UpdateByNonOwnerIsNoOp(t: Tables, surveyKey: string, userKey: string, f: SurveyFields)
    requires forall s :: s in t.surveys && s.id == surveyKey ==> s.userId != userKey || !UserExists(t, userKey)
    ensures Updated(t, surveyKey, userKey, f) == t.surveys
    ensures OwnedTargets(t, surveyKey, userKey) == []
  {
    var p := (s: SurveyRow) => OwnedTarget(t, surveyKey, userKey, s);
    FilterKeepsNone(t.surveys, p);
    var r := Updated(t, surveyKey, userKey, f);
    forall i | 0 <= i < |t.surveys| ensures r[i] == t.surveys[i] {
      assert t.surveys[i] in t.surveys;
    }
  }

  /** UPDATE surveys SET ... WHERE the survey is the caller's; answers the
      number of rows changed (0 for a missing id and for a non-owner alike). */
  method UpdateSurvey(db: Database, surveyId: string, userId: string, f: SurveyFields) returns (changed: nat)
    requires db.Valid()
    modifies db
    ensures db.Valid() && db.saved == old(db.saved)
    ensures db.tables == old(db.tables).(surveys := Updated(old(db.tables), Normalize(surveyId), Normalize(userId), f))
    ensures changed == |OwnedTargets(old(db.tables), Normalize(surveyId), Normalize(userId))|
  {
    var t := db.tables;
    var next := t.(surveys := Updated(t, Normalize(surveyId), Normalize(userId), f));
    UpdateTouchesOnlyOwnedRow(t, Normalize(surveyId), Normalize(userId), f);
    assert UniqueSurveyIds(next.surveys);
    db.Write(next);
    changed := |OwnedTargets(t, Normalize(surveyId), Normalize(userId))|;
  }

  // ---------------------------------------------------------------------------
  // deleteSurvey
  // ---------------------------------------------------------------------------

  /** The keys of the survey's constrained questions, whose options the
      cascade removes. */
  function QuestionKeys(t: Tables, surveyKey: string): (keys: set<string>)
    ensures forall k :: k in keys <==> exists q :: q in t.constrained && q.surveyId == surveyKey && q.id == k
  {
    set q | q in t.constrained && q.surveyId == surveyKey :: q.id
  }

  /** The survey `surveyKey` and everything under it, removed. The nested
      rows go with it through the schema's ON DELETE CASCADE foreign keys. */
  function Cascade(t: Tables, surveyKey: string): Tables
  {
    var questions := QuestionKeys(t, surveyKey);
    t.(surveys := Filter(t.surveys, (s: SurveyRow) => s.id != surveyKey),
       freestyle := Filter(t.freestyle, (q: FreestyleRow) => q.surveyId != surveyKey),
       constrained := Filter(t.constrained, (q: ConstrainedRow) => q.surveyId != surveyKey),
       options := Filter(t.options, (o: OptionRow) => o.questionId !in questions),
       tokens := Filter(t.tokens, (k: TokenRow) => k.surveyId != surveyKey))
  }

  function Deleted(t: Tables, surveyKey: string, userKey: string): Tables
  {
    if OwnedTargets(t, surveyKey, userKey) == [] then t else Cascade(t, surveyKey)
  }

  /** The owner's delete removes the survey with all its questions, options
      and tokens, and keeps every other survey and everything under it. */
  lemma DeleteByOwnerRemovesAggregate(t: Tables, surveyKey: string, userKey: string)
    requires exists s :: s in t.surveys && OwnedTarget(t, surveyKey, userKey, s)
    ensures var r := Deleted(t, surveyKey, userKey);
      && SurveysWithId(r, surveyKey) == []
      && FreestyleOf(r, surveyKey) == [] && ConstrainedOf(r, surveyKey) == []
      && (forall q :: q in t.constrained && q.surveyId == surveyKey ==> OptionsOf(r, q.id) == [])
      && (forall k :: k in r.tokens ==> k.surveyId != surveyKey)
      && (forall s :: s in t.surveys && s.id != surveyKey ==> s in r.surveys)
      && (forall q :: q in t.freestyle && q.surveyId != surveyKey ==> q in r.freestyle)
      && (forall q :: q in t.constrained && q.surveyId != surveyKey ==> q in r.constrained)
      && (forall o :: o in t.options && o.questionId !in QuestionKeys(t, surveyKey) ==> o in r.options)
      && (forall k :: k in t.tokens && k.surveyId != surveyKey ==> k in r.tokens)
      && r.users == t.users
  {
    var s :| s in t.surveys && OwnedTarget(t, surveyKey, userKey, s);
    assert s in OwnedTargets(t, surveyKey, userKey);
    var r := Cascade(t, surveyKey);
    FilterKeepsNone(r.surveys, HasId(surveyKey));
    FilterKeepsNone(r.freestyle, FreestyleIn(surveyKey));
    FilterKeepsNone(r.constrained, ConstrainedIn(surveyKey));
    forall q | q in t.constrained && q.surveyId == surveyKey ensures OptionsOf(r, q.id) == [] {
      FilterKeepsNone(r.options, AnswersTo(q.id));
    }
  }

  /** Anyone but the owner deletes nothing, exactly as for a missing id. */
  lemma DeleteByNonOwnerIsNoOp(t: Tables, surveyKey: string, userKey: string)
    requires forall s :: s in t.surveys && s.id == surveyKey ==> s.userId != userKey || !UserExists(t, userKey)
    ensures Deleted(t, surveyKey, userKey) == t
  {
    FilterKeepsNone(t.surveys, (s: SurveyRow) => OwnedTarget(t, surveyKey, userKey, s));
  }

  /** DELETE FROM surveys WHERE the survey is the caller's; answers the
      number of surveys removed. */
  method DeleteSurvey(db: Database, surveyId: string, userId: string) returns (removed: nat)
    requires db.Valid()
    modifies db
    ensures db.Valid() && db.saved == old(db.saved)
    ensures db.tables == Deleted(old(db.tables), Normalize(surveyId), Normalize(userId))
    ensures removed == |OwnedTargets(old(db.tables), Normalize(surveyId), Normalize(userId))|
  {
    var t := db.tables;
    var next := Deleted(t, Normalize(surveyId), Normalize(userId));
    FilterKeepsUniqueSurveyIds(t.surveys, (s: SurveyRow) => s.id != Normalize(surveyId));
    db.Write(next);
    removed := |OwnedTargets(t, Normalize(surveyId), Normalize(userId))|;
  }

  // ---------------------------------------------------------------------------
  // getSurveyByIdAndUserId
  // ---------------------------------------------------------------------------

  /** SELECT * FROM surveys WHERE id = survey AND user_id = user. */
  function GetSurveyByIdAndUserId(t: Tables, surveyId: string, userId: string): (r: seq<SurveyRow>)
    ensures forall s :: s in r <==> s in t.surveys && s.id == Normalize(surveyId) && s.userId == Normalize(userId)
  {
    Filter(t.surveys, (s: SurveyRow) => s.id == Normalize(surveyId) && s.userId == Normalize(userId))
  }

  /** The lookup finds at most one row, and finds it exactly when the survey
      exists and belongs to the user: another owner looks like a missing id. */
  lemma OwnedLookup(t: Tables, surveyId: string, userId: string)
    requires WellFormed(t)
    ensures |GetSurveyByIdAndUserId(t, surveyId, userId)| <= 1
    ensures GetSurveyByIdAndUserId(t, surveyId, userId) != [] <==>
              exists s :: s in SurveysWithId(t, Normalize(surveyId)) && s.userId == Normalize(userId)
  {
    AtMostOneSurveyWithId(t.surveys, Normalize(surveyId),
      (s: SurveyRow) => s.id == Normalize(surveyId) && s.userId == Normalize(userId));
    var r := GetSurveyByIdAndUserId(t, surveyId, userId);
    if r != [] {
      assert r[0] in r;
    }
  }

  // ---------------------------------------------------------------------------
  // The aggregate document: json_build_object / json_agg
  // ---------------------------------------------------------------------------

  /** json_agg over no rows is NULL. */
  function JsonAgg<T>(s: seq<T>): (r: Option<seq<T>>)
    ensures r.None? <==> s == []
    ensures r.Some? ==> r.value == s
  {
    if s == [] then None else Some(s)
  }

  /** One constrained question with the json_agg of its options. */
  function QuestionJson(t: Tables, q: ConstrainedRow): ConstrainedDoc
  {
    ConstrainedDoc(q.id, q.questionText, q.position, JsonAgg(OptionDocs(OptionsOf(t, q.id))))
  }

  /** The constrained questions of a survey, each with the json_agg of its
      options (NULL for a question without options). */
  function ConstrainedJson(t: Tables, surveyKey: string): seq<ConstrainedDoc>
  {
    var qs := ConstrainedOf(t, surveyKey);
    seq(|qs|, i requires 0 <= i < |qs| => QuestionJson(t, qs[i]))
  }

  /** The list holds one entry per constrained question of the survey: each
      of them is there with its options, and nothing else is. */
  lemma ConstrainedJsonContents(t: Tables, surveyKey: string)
    ensures var r := ConstrainedJson(t, surveyKey);
      && |r| == |ConstrainedOf(t, surveyKey)|
      && (forall q :: q in t.constrained && q.surveyId == surveyKey ==> QuestionJson(t, q) in r)
      && (forall c :: c in r ==> exists q :: q in t.constrained && q.surveyId == surveyKey && c == QuestionJson(t, q))
  {
    var qs := ConstrainedOf(t, surveyKey);
    var r := ConstrainedJson(t, surveyKey);
    forall q | q in t.constrained && q.surveyId == surveyKey ensures QuestionJson(t, q) in r {
      var i :| 0 <= i < |qs| && qs[i] == q;
      assert r[i] == QuestionJson(t, q);
    }
    forall c | c in r ensures exists q :: q in t.constrained && q.surveyId == surveyKey && c == QuestionJson(t, q) {
      var i :| 0 <= i < |r| && r[i] == c;
      assert qs[i] in qs;
    }
  }

  /** The row the aggregate query builds for survey `s`, before the nulls are replaced. */
  function AggregateJson(t: Tables, s: SurveyRow): SurveyDoc
  {
    SurveyDoc(s, JsonAgg(ConstrainedJson(t, s.id)), JsonAgg(FreestyleDocs(FreestyleOf(t, s.id))))
  }

  /** The document with a null question list replaced by the empty list. */
  function Filled(d: SurveyDoc): SurveyDoc
  {
    d.(constrained := Some(d.constrained.GetOr([])), freestyle := Some(d.freestyle.GetOr([])))
  }

  /** The loop that overwrites null question lists with `[]`, in place. */
  method FillNulls(jsons: seq<SurveyDoc>) returns (ret: seq<SurveyDoc>)
    ensures |ret| == |jsons|
    ensures forall i :: 0 <= i < |ret| ==> ret[i].constrained.Some? && ret[i].freestyle.Some?
    ensures forall i :: 0 <= i < |ret| ==> ret[i] == Filled(jsons[i])
  {
    ret := jsons;
    for i := 0 to |ret|
      invariant |ret| == |jsons|
      invariant forall k :: 0 <= k < i ==> ret[k] == Filled(jsons[k])
      invariant forall k :: i <= k < |ret| ==> ret[k] == jsons[k]
    {
      if ret[i].constrained.None? {
        ret := ret[i := ret[i].(constrained := Some([]))];
      }
      if ret[i].freestyle.None? {
        ret := ret[i := ret[i].(freestyle := Some([]))];
      }
    }
  }

  /** The filled aggregate keeps every question and option of the survey; only
      a missing list becomes empty, and a question without options keeps a null list. */
  lemma AggregateContents(t: Tables, s: SurveyRow)
    ensures var d := Filled(AggregateJson(t, s));
      && d.survey == s
      && d.freestyle == Some(FreestyleDocs(FreestyleOf(t, s.id)))
      && d.constrained == Some(ConstrainedJson(t, s.id))
      && forall c :: c in d.constrained.value ==> (c.options.None? <==> OptionsOf(t, c.id) == [])
  {
    var qs := ConstrainedOf(t, s.id);
    var cs := ConstrainedJson(t, s.id);
    forall c | c in cs ensures c.options.None? <==> OptionsOf(t, c.id) == [] {
      var i :| 0 <= i < |cs| && cs[i] == c;
      assert c == QuestionJson(t, qs[i]);
    }
  }

  /** getSurveyById: zero or one aggregate for the id, never with a null question list. */
  method GetSurveyById(db: Database, id: string) returns (docs: seq<SurveyDoc>)
    requires db.Valid()
    ensures |docs| <= 1
    ensures docs == [] <==> SurveysWithId(db.tables, Normalize(id)) == []
    ensures forall d :: d in docs ==>
      && d.survey in db.tables.surveys && d.survey.id == Normalize(id)
      && d == Filled(AggregateJson(db.tables, d.survey))
      && d.constrained.Some? && d.freestyle.Some?
  {
    var t := db.tables;
    var rows := SurveysWithId(t, Normalize(id));
    AtMostOneSurvey(t, Normalize(id));
    var jsons := seq(|rows|, i requires 0 <= i < |rows| => AggregateJson(t, rows[i]));
    docs := FillNulls(jsons);
    forall d | d in docs
      ensures d.survey in t.surveys && d.survey.id == Normalize(id) && d == Filled(AggregateJson(t, d.survey))
    {
      var i :| 0 <= i < |docs| && docs[i] == d;
      assert rows[i] in rows;
    }
  }

  // ---------------------------------------------------------------------------
  // searchSurveys and countSurveys
  // ---------------------------------------------------------------------------

  /** The filter values; absent ones are NULL. `description` is accepted but no
      WHERE clause reads it. */
  datatype SearchArgs = SearchArgs(
    userId: Option<string>,
    title: Option<string>,
    description: Option<string>,
    secured: Option<bool>,
    startDate: Option<Date>,
    endDate: Option<Date>)

  /** `s.title LIKE '%title%'`; an empty title is falsy and stays unwrapped, so
      it matches only empty titles. */
  predicate TitleLike(s: SurveyRow, title: Option<string>)
  {
    title.None? || (if title.value == "" then s.title == "" else Contains(s.title, title.value))
  }

  /** The user, title and date clauses, shared by search and count. */
  predicate CommonMatches(a: SearchArgs, s: SurveyRow)
  {
    && (a.userId.None? || s.userId == Normalize(a.userId.value))
    && TitleLike(s, a.title)
    && StartsAfter(s, a.startDate)
    && EndsBeforeStartFilter(s, a.startDate, a.endDate)
  }

  /** The search WHERE: `secured IS NULL OR s.secured = secured`, then the common clauses. */
  predicate SearchMatches(a: SearchArgs, s: SurveyRow)
  {
    (a.secured.None? || s.secured == a.secured.value) && CommonMatches(a, s)
  }

  /** The count WHERE: `s.secured = secured` with no NULL escape. */
  predicate CountMatches(a: SearchArgs, s: SurveyRow)
  {
    a.secured.Some? && s.secured == a.secured.value && CommonMatches(a, s)
  }

  /** ORDER BY created DESC. */
  function NewerFirst(a: SurveyRow, b: SurveyRow): bool
  {
    a.created >= b.created
  }

  function SearchMatching(t: Tables, a: SearchArgs): (r: seq<SurveyRow>)
    ensures forall s :: s in r <==> s in t.surveys && SearchMatches(a, s)
  {
    Filter(t.surveys, (s: SurveyRow) => SearchMatches(a, s))
  }

  /** The rows of one result page: matching, newest first, OFFSET pageNumber * pageSize LIMIT pageSize. */
  function SearchRows(t: Tables, a: SearchArgs, pageNumber: nat, pageSize: nat): seq<SurveyRow>
  {
    Page(SortBy(SearchMatching(t, a), NewerFirst), pageNumber, pageSize)
  }

  lemma NewerFirstIsTotal()
    ensures TotalPreorder(NewerFirst)
  {
  }

  /** A page holds at most `pageSize` surveys, each one matching the filter,
      newest first. */
  lemma SearchPageSound(t: Tables, a: SearchArgs, pageNumber: nat, pageSize: nat)
    ensures var r := SearchRows(t, a, pageNumber, pageSize);
      && |r| <= pageSize
      && (forall s :: s in r ==> s in t.surveys && SearchMatches(a, s))
      && SortedBy(r, NewerFirst)
  {
    var sorted := SortBy(SearchMatching(t, a), NewerFirst);
    SortByMembers(SearchMatching(t, a), NewerFirst);
    SortBySorted(SearchMatching(t, a), NewerFirst);
    PageWithin(sorted, pageNumber, pageSize);
    PageKeepsOrder(sorted, pageNumber, pageSize, NewerFirst);
  }

  /** Every matching survey is on some page. */
  lemma SearchPagesComplete(t: Tables, a: SearchArgs, pageSize: nat, s: SurveyRow)
    requires pageSize > 0 && s in t.surveys && SearchMatches(a, s)
    ensures exists n: nat :: s in SearchRows(t, a, n, pageSize)
  {
    var sorted := SortBy(SearchMatching(t, a), NewerFirst);
    SortByMembers(SearchMatching(t, a), NewerFirst);
    PagesCover(sorted, pageSize, s);
    var n: nat :| s in Page(sorted, n, pageSize);
    assert s in SearchRows(t, a, n, pageSize);
  }

  /** `ORDER BY s.created DESC` leaves the order of equal `created` values to
      the database. When no two matching surveys share `created`, every
      newest-first arrangement the database may return is the one the model
      pages through, so the pages and their completeness hold whatever it picks. */
  lemma SearchOrderDetermined(t: Tables, a: SearchArgs, order: seq<SurveyRow>)
    requires multiset(order) == multiset(SearchMatching(t, a))
    requires SortedBy(order, NewerFirst)
    requires forall x, y :: x in SearchMatching(t, a) && y in SearchMatching(t, a) && x.created == y.created ==> x == y
    ensures order == SortBy(SearchMatching(t, a), NewerFirst)
  {
    var matching := SearchMatching(t, a);
    NewerFirstIsTotal();
    SortBySorted(matching, NewerFirst);
    forall x, y | x in order && y in order && NewerFirst(x, y) && NewerFirst(y, x) ensures x == y {
      assert x in multiset(order) && y in multiset(order);
      assert x in matching && y in matching;
    }
    SortedUnique(order, SortBy(matching, NewerFirst), NewerFirst);
  }

  /** The description filter is formatted but never compared. */
  lemma SearchIgnoresDescription(t: Tables, a: SearchArgs, description: Option<string>, pageNumber: nat, pageSize: nat)
    ensures SearchRows(t, a.(description := description), pageNumber, pageSize) == SearchRows(t, a, pageNumber, pageSize)
    ensures CountSurveys(t, a.(description := description)) == CountSurveys(t, a)
  {
    var b := a.(description := description);
    FilterSamePredicate(t.surveys, (s: SurveyRow) => SearchMatches(b, s), (s: SurveyRow) => SearchMatches(a, s));
    FilterSamePredicate(t.surveys, (s: SurveyRow) => CountMatches(b, s), (s: SurveyRow) => CountMatches(a, s));
  }

  /** An end filter without a start filter lets nothing through; with both,
      every result ended before the START filter value. */
  lemma EndFilterComparesWithStart(t: Tables, a: SearchArgs, pageNumber: nat, pageSize: nat)
    requires a.endDate.Some?
    ensures a.startDate.None? ==> SearchRows(t, a, pageNumber, pageSize) == []
    ensures a.startDate.Some? ==> forall s :: s in SearchRows(t, a, pageNumber, pageSize) ==>
              s.endDate.Some? && s.endDate.value < a.startDate.value
  {
    SearchPageSound(t, a, pageNumber, pageSize);
    if a.startDate.None? {
      FilterKeepsNone(t.surveys, (s: SurveyRow) => SearchMatches(a, s));
    }
  }

  /** The loop that collects the result rows and overwrites null lists. */
  method SearchSurveys(db: Database, a: SearchArgs, pageNumber: nat, pageSize: nat) returns (ret: seq<SurveyDoc>)
    requires db.Valid()
    ensures var rows := SearchRows(db.tables, a, pageNumber, pageSize);
      |ret| == |rows| && forall i :: 0 <= i < |ret| ==> ret[i] == Filled(AggregateJson(db.tables, rows[i]))
    ensures |ret| <= pageSize
    ensures forall d :: d in ret ==> d.constrained.Some? && d.freestyle.Some? && SearchMatches(a, d.survey)
  {
    var rows := SearchRows(db.tables, a, pageNumber, pageSize);
    SearchPageSound(db.tables, a, pageNumber, pageSize);
    var jsons := [];
    for i := 0 to |rows|
      invariant |jsons| == i
      invariant forall k :: 0 <= k < i ==> jsons[k] == AggregateJson(db.tables, rows[k])
    {
      jsons := jsons + [AggregateJson(db.tables, rows[i])];
    }
    ret := FillNulls(jsons);
    forall d | d in ret ensures SearchMatches(a, d.survey) {
      var i :| 0 <= i < |ret| && ret[i] == d;
      assert rows[i] in rows;
    }
  }

  /** SELECT count(...) with the count WHERE. */
  function CountSurveys(t: Tables, a: SearchArgs): nat
  {
    |Filter(t.surveys, (s: SurveyRow) => CountMatches(a, s))|
  }

  /** Without a secured value the count is 0; with one it is the number of
      surveys the search matches over all its pages, and a single page of at
      least that size holds all of them. */
  lemma CountAgreesWithSearch(t: Tables, a: SearchArgs, pageSize: nat)
    ensures a.secured.None? ==> CountSurveys(t, a) == 0
    ensures a.secured.Some? ==> CountSurveys(t, a) == |SearchMatching(t, a)|
    ensures a.secured.Some? && CountSurveys(t, a) <= pageSize ==>
              |SearchRows(t, a, 0, pageSize)| == CountSurveys(t, a)
  {
    if a.secured.None? {
      FilterKeepsNone(t.surveys, (s: SurveyRow) => CountMatches(a, s));
    } else {
      FilterSamePredicate(t.surveys, (s: SurveyRow) => CountMatches(a, s), (s: SurveyRow) => SearchMatches(a, s));
    }
  }
}
