/**
 * The survey handlers (src/service/SurveyService.js): reassembly of a survey
 * with its questions and options, the two retrieve paths and their read
 * permissions, all-or-nothing creation, and the query defaulting of the
 * search and count handlers.
 *
 * The question and option stores the handlers call are not part of this
 * model; they are taken to select rows by the hyphen-stripped survey or
 * question id and to insert one row with a generated id.
 */
module SurveyService {
  import opened Ids
  import opened Seqs
  import opened Rows
  import opened Transactions
  import SurveyDB
  import SqlSurveyDB

  // ---------------------------------------------------------------------------
  // Reassembly (getSurvey and the retrieve handlers)
  // ---------------------------------------------------------------------------

  /** One constrained question carrying the list of its options. */
  function QuestionDoc(t: Tables, q: ConstrainedRow): ConstrainedDoc
  {
    ConstrainedDoc(q.id, q.questionText, q.position, Some(OptionDocs(OptionsOf(t, q.id))))
  }

  /** The constrained questions of a survey, each carrying its list of options. */
  function ConstrainedWithOptions(t: Tables, surveyKey: string): seq<ConstrainedDoc>
  {
    var qs := ConstrainedOf(t, surveyKey);
    seq(|qs|, i requires 0 <= i < |qs| => QuestionDoc(t, qs[i]))
  }

  /** The document the handlers build for survey row `s`. */
  function AssembledDoc(t: Tables, s: SurveyRow): SurveyDoc
  {
    SurveyDoc(s, Some(ConstrainedWithOptions(t, s.id)), Some(FreestyleDocs(FreestyleOf(t, s.id))))
  }

  /** The push loops: both question lists start empty, every question of the
      survey is pushed, and each constrained question gets its options. */
  method Assemble(db: Database, s: SurveyRow) returns (doc: SurveyDoc)
    ensures doc == AssembledDoc(db.tables, s)
    ensures doc.freestyle.Some? && doc.constrained.Some?
    ensures forall c :: c in doc.constrained.value ==> c.options.Some?
  {
    var t := db.tables;
    var fqs := FreestyleOf(t, s.id);
    var freestyle: seq<FreestyleDoc> := [];
    for i := 0 to |fqs|
      invariant |freestyle| == i
      invariant forall k :: 0 <= k < i ==> freestyle[k] == FreestyleDoc(fqs[k].id, fqs[k].questionText, fqs[k].position)
    {
      freestyle := freestyle + [FreestyleDoc(fqs[i].id, fqs[i].questionText, fqs[i].position)];
    }
    var cqs := ConstrainedOf(t, s.id);
    var constrained: seq<ConstrainedDoc> := [];
    for i := 0 to |cqs|
      invariant |constrained| == i
      invariant forall k :: 0 <= k < i ==> constrained[k] == QuestionDoc(t, cqs[k])
    {
      var options := OptionDocs(OptionsOf(t, cqs[i].id));
      constrained := constrained + [ConstrainedDoc(cqs[i].id, cqs[i].questionText, cqs[i].position, Some(options))];
    }
    assert freestyle == FreestyleDocs(fqs);
    assert constrained == ConstrainedWithOptions(t, s.id);
    doc := SurveyDoc(s, Some(constrained), Some(freestyle));
    forall c | c in constrained ensures c.options.Some? {
      var k :| 0 <= k < |constrained| && constrained[k] == c;
    }
  }

  /** The document holds exactly the questions stored under the survey and,
      for each constrained question, exactly its options. */
  lemma AssembledDocContents(t: Tables, s: SurveyRow)
    ensures var d := AssembledDoc(t, s);
      && d.survey == s
      && |d.freestyle.value| == |FreestyleOf(t, s.id)|
      && |d.constrained.value| == |ConstrainedOf(t, s.id)|
      && (forall q :: q in t.freestyle && q.surveyId == s.id ==>
            FreestyleDoc(q.id, q.questionText, q.position) in d.freestyle.value)
      && (forall q :: q in t.constrained && q.surveyId == s.id ==> QuestionDoc(t, q) in d.constrained.value)
      && (forall f :: f in d.freestyle.value ==>
            exists q :: q in t.freestyle && q.surveyId == s.id && f == FreestyleDoc(q.id, q.questionText, q.position))
      && (forall c :: c in d.constrained.value ==>
            exists q :: q in t.constrained && q.surveyId == s.id && c == QuestionDoc(t, q))
  {
    var fqs := FreestyleOf(t, s.id);
    var fd := FreestyleDocs(fqs);
    forall q | q in t.freestyle && q.surveyId == s.id
      ensures FreestyleDoc(q.id, q.questionText, q.position) in fd
    {
      var i :| 0 <= i < |fqs| && fqs[i] == q;
      assert fd[i] == FreestyleDoc(q.id, q.questionText, q.position);
    }
    var cqs := ConstrainedOf(t, s.id);
    var cd := ConstrainedWithOptions(t, s.id);
    forall q | q in t.constrained && q.surveyId == s.id ensures QuestionDoc(t, q) in cd {
      var i :| 0 <= i < |cqs| && cqs[i] == q;
      assert cd[i] == QuestionDoc(t, q);
    }
    forall f | f in fd ensures exists q :: q in t.freestyle && q.surveyId == s.id && f == FreestyleDoc(q.id, q.questionText, q.position) {
      var i :| 0 <= i < |fd| && fd[i] == f;
      assert fqs[i] in fqs;
    }
    forall c | c in cd ensures exists q :: q in t.constrained && q.surveyId == s.id && c == QuestionDoc(t, q) {
      var i :| 0 <= i < |cd| && cd[i] == c;
      assert cqs[i] in cqs;
    }
  }

  /** A question without options: the handlers give it `[]`, the newer
      store's aggregate gives it null. */
  function OptionsAsList(d: SurveyDoc): SurveyDoc
    requires d.constrained.Some?
  {
    var cs := d.constrained.value;
    d.(constrained := Some(seq(|cs|, i requires 0 <= i < |cs| => cs[i].(options := Some(cs[i].options.GetOr([]))))))
  }

  /** The two generations build the same document, except that the newer one
      leaves `options` null for a constrained question without options. */
  lemma GenerationsAgree(t: Tables, s: SurveyRow)
    ensures OptionsAsList(SqlSurveyDB.Filled(SqlSurveyDB.AggregateJson(t, s))) == AssembledDoc(t, s)
  {
    var newer := SqlSurveyDB.Filled(SqlSurveyDB.AggregateJson(t, s));
    var cs := SqlSurveyDB.ConstrainedJson(t, s.id);
    var older := ConstrainedWithOptions(t, s.id);
    assert newer.constrained == Some(cs);
    var listed := OptionsAsList(newer).constrained.value;
    forall i | 0 <= i < |older| ensures listed[i] == older[i] {
    }
    assert listed == older;
  }

  /** getSurvey: the assembled survey when exactly one row has the id, and a
      thrown error (None) otherwise. */
  method GetSurvey(db: Database, id: string) returns (r: Option<SurveyDoc>)
    ensures r.None? <==> |SurveyDB.GetSurvey(db.tables, id)| != 1
    ensures r.Some? ==> r.value == AssembledDoc(db.tables, SurveyDB.GetSurvey(db.tables, id)[0])
    ensures r.Some? ==> r.value.survey in db.tables.surveys && r.value.survey.id == Normalize(id)
  {
    var rows := SurveyDB.GetSurvey(db.tables, id);
    if |rows| == 1 {
      var doc := Assemble(db, rows[0]);
      assert rows[0] in rows;
      r := Some(doc);
    } else {
      r := None;
    }
  }

  // ---------------------------------------------------------------------------
  // retrievePrivateSurvey and retrievePublicSurvey
  // ---------------------------------------------------------------------------

  /** Who asks: an authenticated user's id and/or a survey token. */
  datatype Caller = Caller(user: Option<string>, token: Option<TokenRow>)

  /** The private read decision: an authenticated user must own the survey;
      without a user, a token must belong to the survey; a caller with neither
      is let through. */
  predicate PrivateReadAllowed(c: Caller, s: SurveyRow)
  {
    if c.user.Some? then Normalize(c.user.value) == s.userId
    else if c.token.Some? then c.token.value.surveyId == s.id
    else true
  }

  /** The user check takes precedence: with a user present, the token has no
      say, and an owner is let through whatever token comes along. */
  lemma UserCheckTakesPrecedence(c: Caller, s: SurveyRow, token: Option<TokenRow>)
    requires c.user.Some?
    ensures PrivateReadAllowed(c.(token := token), s) == PrivateReadAllowed(c, s)
    ensures PrivateReadAllowed(c, s) <==> Normalize(c.user.value) == s.userId
  {
  }

  /** A nonexistent survey gets no response; a refused caller gets 403; any
      other caller gets 200 with the assembled survey. */
  method RetrievePrivateSurvey(db: Database, surveyId: string, c: Caller) returns (resp: Response<SurveyDoc>)
    ensures var rows := SurveyDB.GetSurvey(db.tables, surveyId);
      && (resp.NoResponse? <==> |rows| != 1)
      && (resp.Sent? ==> resp.status == 200 || resp.status == 403)
      && (resp.Sent? && resp.status == 403 <==> |rows| == 1 && !PrivateReadAllowed(c, rows[0]))
      && (resp.Sent? && resp.status == 200 <==> |rows| == 1 && PrivateReadAllowed(c, rows[0]))
      && (resp.Sent? && resp.status == 200 ==> resp.payload == Some(AssembledDoc(db.tables, rows[0])))
      && (resp.Sent? && resp.status == 403 ==> resp.payload.None?)
  {
    var rows := SurveyDB.GetSurvey(db.tables, surveyId);
    if |rows| == 1 {
      var s := rows[0];
      if c.user.Some? {
        if s.userId != Normalize(c.user.value) {
          return Sent(403, None);
        }
      } else if c.token.Some? {
        if c.token.value.surveyId != s.id {
          return Sent(403, None);
        }
      }
      var doc := Assemble(db, s);
      resp := Sent(200, Some(doc));
    } else {
      resp := NoResponse;
    }
  }

  /** A nonexistent survey gets no response; a secured one 403; an unsecured
      one 200 with the assembled survey. */
  method RetrievePublicSurvey(db: Database, surveyId: string) returns (resp: Response<SurveyDoc>)
    ensures var rows := SurveyDB.GetSurvey(db.tables, surveyId);
      && (resp.NoResponse? <==> |rows| != 1)
      && (resp.Sent? && resp.status == 403 <==> |rows| == 1 && rows[0].secured)
      && (resp.Sent? && resp.status == 200 <==> |rows| == 1 && !rows[0].secured)
      && (resp.Sent? ==> resp.status == 200 || resp.status == 403)
      && (resp.Sent? && resp.status == 200 ==> resp.payload == Some(AssembledDoc(db.tables, rows[0])))
      && (resp.Sent? && resp.status == 403 ==> resp.payload.None?)
  {
    var rows := SurveyDB.GetSurvey(db.tables, surveyId);
    if |rows| == 1 {
      var s := rows[0];
      if !s.secured {
        var doc := Assemble(db, s);
        return Sent(200, Some(doc));
      }
      resp := Sent(403, None);
    } else {
      resp := NoResponse;
    }
  }

  // ---------------------------------------------------------------------------
  // createSurvey
  // ---------------------------------------------------------------------------

  datatype FreestyleInput = FreestyleInput(questionText: string, position: int)
  datatype OptionInput = OptionInput(answer: string, position: int)
  datatype ConstrainedInput = ConstrainedInput(questionText: string, position: int, options: seq<OptionInput>)

  /** The request body of a new survey. */
  datatype SurveyRequest = SurveyRequest(
    title: string,
    description: string,
    startDate: Option<Date>,
    endDate: Option<Date>,
    secured: bool,
    freestyle: seq<FreestyleInput>,
    constrained: seq<ConstrainedInput>)

  /** The survey row the request creates: start date defaults to now, end date to null. */
  function CreatedRow(t: Tables, userId: string, req: SurveyRequest, now: Date): (row: SurveyRow)
    ensures row.id == FreshKey(t) && row.userId == Normalize(userId) && row.created == now
    ensures row.title == req.title && row.description == req.description && row.secured == req.secured
    ensures row.startDate == (if req.startDate.Some? then req.startDate else Some(now)) && row.endDate == req.endDate
  {
    SurveyDB.NewSurveyRow(t, req.title, req.description, if req.startDate.Some? then req.startDate else Some(now),
                          req.endDate, req.secured, userId, now)
  }

  /** Insert statements for the constrained questions and their options. */
  function ConstrainedStatements(cs: seq<ConstrainedInput>): nat
  {
    if cs == [] then 0 else ConstrainedStatements(cs[..|cs| - 1]) + 1 + |cs[|cs| - 1].options|
  }

  /** Insert statements of the whole creation: the survey, its freestyle
      questions, its constrained questions and their options. */
  function Statements(req: SurveyRequest): nat
  {
    1 + |req.freestyle| + ConstrainedStatements(req.constrained)
  }

  /** The position, among the insert statements, of constrained question `i`. */
  function QuestionIndex(req: SurveyRequest, i: nat): nat
    requires i <= |req.constrained|
  {
    1 + |req.freestyle| + ConstrainedStatements(req.constrained[..i])
  }

  lemma QuestionIndexStep(req: SurveyRequest, i: nat)
    requires i < |req.constrained|
    ensures QuestionIndex(req, i + 1) == QuestionIndex(req, i) + 1 + |req.constrained[i].options|
  {
    assert req.constrained[..i + 1][..i] == req.constrained[..i];
  }

  /** Later questions come later among the statements, and none after the last. */
  lemma {:induction false} QuestionIndexIncreasing(req: SurveyRequest, k: nat, i: nat)
    requires k < i <= |req.constrained|
    ensures QuestionIndex(req, k) < QuestionIndex(req, i)
    ensures QuestionIndex(req, i) <= Statements(req)
    decreases |req.constrained| - k
  {
    QuestionIndexStep(req, k);
    if k + 1 < i {
      QuestionIndexIncreasing(req, k + 1, i);
    } else if i < |req.constrained| {
      QuestionIndexIncreasing(req, i, |req.constrained|);
    } else {
      assert req.constrained[..i] == req.constrained;
    }
  }

  /** The freestyle rows the creation inserts: statements 1 .. |freestyle|. */
  function FreestyleRows(t: Tables, req: SurveyRequest): (r: seq<FreestyleRow>)
    ensures |r| == |req.freestyle|
  {
    seq(|req.freestyle|, i requires 0 <= i < |req.freestyle| =>
      FreestyleRow(NthKey(t, 1 + i), FreshKey(t), req.freestyle[i].questionText, req.freestyle[i].position))
  }

  /** The constrained question rows the creation inserts. */
  function QuestionRows(t: Tables, req: SurveyRequest): (r: seq<ConstrainedRow>)
    ensures |r| == |req.constrained|
  {
    seq(|req.constrained|, i requires 0 <= i < |req.constrained| =>
      ConstrainedRow(NthKey(t, QuestionIndex(req, i)), FreshKey(t), req.constrained[i].questionText, req.constrained[i].position))
  }

  /** The first `j` option rows of constrained question `i`, inserted right after it. */
  function OptionRowsOf(t: Tables, req: SurveyRequest, i: nat, j: nat): (r: seq<OptionRow>)
    requires i < |req.constrained| && j <= |req.constrained[i].options|
    ensures |r| == j
  {
    var os := req.constrained[i].options;
    seq(j, k requires 0 <= k < j =>
      OptionRow(NthKey(t, QuestionIndex(req, i) + 1 + k), NthKey(t, QuestionIndex(req, i)), os[k].answer, os[k].position))
  }

  /** All option rows of the first `i` constrained questions. */
  function OptionRowsBefore(t: Tables, req: SurveyRequest, i: nat): seq<OptionRow>
    requires i <= |req.constrained|
  {
    if i == 0 then []
    else OptionRowsBefore(t, req, i - 1) + OptionRowsOf(t, req, i - 1, |req.constrained[i - 1].options|)
  }

  /** The tables after every insert of a successful creation. */
  function Created(t: Tables, userId: string, req: SurveyRequest, now: Date): Tables
  {
    t.(surveys := t.surveys + [CreatedRow(t, userId, req, now)],
       freestyle := t.freestyle + FreestyleRows(t, req),
       constrained := t.constrained + QuestionRows(t, req),
       options := t.options + OptionRowsBefore(t, req, |req.constrained|))
  }

  /** `req`'s questions read back from a stored survey document. */
  function EchoFreestyle(ds: seq<FreestyleDoc>): (r: seq<FreestyleInput>)
    ensures |r| == |ds|
  {
    seq(|ds|, i requires 0 <= i < |ds| => FreestyleInput(ds[i].questionText, ds[i].position))
  }

  function EchoOptions(ds: seq<OptionDoc>): (r: seq<OptionInput>)
    ensures |r| == |ds|
  {
    seq(|ds|, i requires 0 <= i < |ds| => OptionInput(ds[i].answer, ds[i].position))
  }

  function EchoConstrained(ds: seq<ConstrainedDoc>): (r: seq<ConstrainedInput>)
    ensures |r| == |ds|
  {
    seq(|ds|, i requires 0 <= i < |ds| =>
      ConstrainedInput(ds[i].questionText, ds[i].position, EchoOptions(ds[i].options.GetOr([]))))
  }

  /** Question `i` selects all of its own option rows and none of another
      question's. */
  lemma GroupSelection(t: Tables, req: SurveyRequest, g: nat, i: nat)
    requires g < |req.constrained| && i < |req.constrained|
    ensures g == i ==> Filter(OptionRowsOf(t, req, g, |req.constrained[g].options|),
                              AnswersTo(NthKey(t, QuestionIndex(req, i))))
                       == OptionRowsOf(t, req, g, |req.constrained[g].options|)
    ensures g != i ==> Filter(OptionRowsOf(t, req, g, |req.constrained[g].options|),
                              AnswersTo(NthKey(t, QuestionIndex(req, i))))
                       == []
  {
    var p := AnswersTo(NthKey(t, QuestionIndex(req, i)));
    var group := OptionRowsOf(t, req, g, |req.constrained[g].options|);
    if g == i {
      FilterKeepsAll(group, p);
    } else {
      if i < g {
        QuestionIndexIncreasing(req, i, g);
      } else {
        QuestionIndexIncreasing(req, g, i);
      }
      NthKeysDistinct(t, QuestionIndex(req, i), QuestionIndex(req, g));
      FilterKeepsNone(group, p);
    }
  }

  /** The option rows of the first `k` questions hold none of a later
      question's options. */
  lemma {:induction false} OptionsNotYet(t: Tables, req: SurveyRequest, k: nat, i: nat)
    requires k <= i < |req.constrained|
    ensures Filter(OptionRowsBefore(t, req, k), AnswersTo(NthKey(t, QuestionIndex(req, i)))) == []
  {
    if k > 0 {
      var p := AnswersTo(NthKey(t, QuestionIndex(req, i)));
      var before := OptionRowsBefore(t, req, k - 1);
      var group := OptionRowsOf(t, req, k - 1, |req.constrained[k - 1].options|);
      assert OptionRowsBefore(t, req, k) == before + group;
      OptionsNotYet(t, req, k - 1, i);
      GroupSelection(t, req, k - 1, i);
      FilterConcat(before, group, p, [], []);
    }
  }

  /** Among the option rows of the first `k` questions, a question already
      inserted selects exactly its own. */
  lemma {:induction false} OptionGroups(t: Tables, req: SurveyRequest, k: nat, i: nat)
    requires i < k <= |req.constrained|
    ensures Filter(OptionRowsBefore(t, req, k), AnswersTo(NthKey(t, QuestionIndex(req, i))))
         == OptionRowsOf(t, req, i, |req.constrained[i].options|)
  {
    var p := AnswersTo(NthKey(t, QuestionIndex(req, i)));
    var before := OptionRowsBefore(t, req, k - 1);
    var group := OptionRowsOf(t, req, k - 1, |req.constrained[k - 1].options|);
    assert OptionRowsBefore(t, req, k) == before + group;
    GroupSelection(t, req, k - 1, i);
    if i == k - 1 {
      OptionsNotYet(t, req, k - 1, i);
      FilterConcat(before, group, p, [], group);
      assert [] + group == group;
    } else {
      var own := OptionRowsOf(t, req, i, |req.constrained[i].options|);
      OptionGroups(t, req, k - 1, i);
      FilterConcat(before, group, p, own, []);
      assert own + [] == own;
    }
  }

  /** The freestyle questions of the created survey are the inserted rows. */
  lemma CreatedFreestyle(t: Tables, userId: string, req: SurveyRequest, now: Date)
    ensures FreestyleOf(Created(t, userId, req, now), FreshKey(t)) == FreestyleRows(t, req)
  {
    var fp := FreestyleIn(FreshKey(t));
    FreshKeyUnused(t);
    FilterAppend(t.freestyle, FreestyleRows(t, req), fp);
    FilterKeepsNone(t.freestyle, fp);
    FilterKeepsAll(FreestyleRows(t, req), fp);
  }

  /** The constrained questions of the created survey are the inserted rows. */
  lemma CreatedQuestions(t: Tables, userId: string, req: SurveyRequest, now: Date)
    ensures ConstrainedOf(Created(t, userId, req, now), FreshKey(t)) == QuestionRows(t, req)
  {
    var cp := ConstrainedIn(FreshKey(t));
    FreshKeyUnused(t);
    FilterAppend(t.constrained, QuestionRows(t, req), cp);
    FilterKeepsNone(t.constrained, cp);
    FilterKeepsAll(QuestionRows(t, req), cp);
  }

  /** Each created question has exactly the option rows inserted after it. */
  lemma CreatedOptions(t: Tables, userId: string, req: SurveyRequest, now: Date, i: nat)
    requires i < |req.constrained|
    ensures OptionsOf(Created(t, userId, req, now), QuestionRows(t, req)[i].id)
         == OptionRowsOf(t, req, i, |req.constrained[i].options|)
  {
    var key := QuestionRows(t, req)[i].id;
    var op := AnswersTo(key);
    NthKeyUnused(t, QuestionIndex(req, i));
    FilterAppend(t.options, OptionRowsBefore(t, req, |req.constrained|), op);
    FilterKeepsNone(t.options, op);
    OptionGroups(t, req, |req.constrained|, i);
  }

  /** The created survey's freestyle questions read back as the request's. */
  lemma CreatedEchoesFreestyle(t: Tables, userId: string, req: SurveyRequest, now: Date)
    ensures EchoFreestyle(FreestyleDocs(FreestyleOf(Created(t, userId, req, now), FreshKey(t)))) == req.freestyle
  {
    CreatedFreestyle(t, userId, req, now);
    var ef := EchoFreestyle(FreestyleDocs(FreestyleRows(t, req)));
    forall i | 0 <= i < |ef| ensures ef[i] == req.freestyle[i] {
    }
  }

  /** Each created question's options read back as the request's. */
  lemma CreatedEchoesOptions(t: Tables, userId: string, req: SurveyRequest, now: Date, i: nat)
    requires i < |req.constrained|
    ensures EchoOptions(OptionDocs(OptionsOf(Created(t, userId, req, now), QuestionRows(t, req)[i].id)))
         == req.constrained[i].options
  {
    CreatedOptions(t, userId, req, now, i);
    var eo := EchoOptions(OptionDocs(OptionRowsOf(t, req, i, |req.constrained[i].options|)));
    forall k | 0 <= k < |eo| ensures eo[k] == req.constrained[i].options[k] {
    }
  }

  /** The created survey's constrained questions, with their options, read
      back as the request's. */
  lemma CreatedEchoesConstrained(t: Tables, userId: string, req: SurveyRequest, now: Date)
    ensures EchoConstrained(ConstrainedWithOptions(Created(t, userId, req, now), FreshKey(t))) == req.constrained
  {
    CreatedQuestions(t, userId, req, now);
    var ec := EchoConstrained(ConstrainedWithOptions(Created(t, userId, req, now), FreshKey(t)));
    forall i | 0 <= i < |ec| ensures ec[i] == req.constrained[i] {
      CreatedEchoesOptions(t, userId, req, now, i);
    }
  }

  /** Round trip: the survey a successful creation stores reads back as the
      request, question by question and option by option, under a row with
      the request's fields and the defaulted dates. */
  lemma CreatedEchoesRequest(t: Tables, userId: string, req: SurveyRequest, now: Date)
    ensures var d := AssembledDoc(Created(t, userId, req, now), CreatedRow(t, userId, req, now));
      && d.survey == CreatedRow(t, userId, req, now)
      && EchoFreestyle(d.freestyle.value) == req.freestyle
      && EchoConstrained(d.constrained.value) == req.constrained
  {
    CreatedEchoesFreestyle(t, userId, req, now);
    CreatedEchoesConstrained(t, userId, req, now);
  }

  /** A successful creation adds rows and changes none: every table keeps its
      old rows in front, and the only new survey is the created one. */
  lemma CreatedKeepsOldRows(t: Tables, userId: string, req: SurveyRequest, now: Date)
    requires WellFormed(t)
    ensures var c := Created(t, userId, req, now);
      && WellFormed(c)
      && c.surveys == t.surveys + [CreatedRow(t, userId, req, now)]
      && c.freestyle[..|t.freestyle|] == t.freestyle
      && c.constrained[..|t.constrained|] == t.constrained
      && c.options[..|t.options|] == t.options
      && c.tokens == t.tokens && c.users == t.users
      && SurveysWithId(c, FreshKey(t)) == [CreatedRow(t, userId, req, now)]
  {
    var row := CreatedRow(t, userId, req, now);
    FreshKeyUnused(t);
    SurveyDB.AppendFreshSurvey(t, row);
    var p := HasId(FreshKey(t));
    FilterAppend(t.surveys, [row], p);
    FilterKeepsNone(t.surveys, p);
  }

  /** The tables part-way through a creation: the survey row, the first
      `freestyle` freestyle rows, the first `questions` question rows and the
      option rows `options` inserted so far. */
  function InProgress(t: Tables, userId: string, req: SurveyRequest, now: Date,
                      freestyle: nat, questions: nat, options: seq<OptionRow>): Tables
    requires freestyle <= |req.freestyle| && questions <= |req.constrained|
  {
    t.(surveys := t.surveys + [CreatedRow(t, userId, req, now)],
       freestyle := t.freestyle + FreestyleRows(t, req)[..freestyle],
       constrained := t.constrained + QuestionRows(t, req)[..questions],
       options := t.options + options)
  }

  lemma InProgressStart(t: Tables, userId: string, req: SurveyRequest, now: Date)
    ensures InProgress(t, userId, req, now, 0, 0, []) == t.(surveys := t.surveys + [CreatedRow(t, userId, req, now)])
  {
    assert FreestyleRows(t, req)[..0] == [] && QuestionRows(t, req)[..0] == [];
    assert t.freestyle + [] == t.freestyle && t.constrained + [] == t.constrained && t.options + [] == t.options;
  }

  lemma InProgressWellFormed(t: Tables, userId: string, req: SurveyRequest, now: Date,
                             freestyle: nat, questions: nat, options: seq<OptionRow>)
    requires WellFormed(t) && freestyle <= |req.freestyle| && questions <= |req.constrained|
    ensures WellFormed(InProgress(t, userId, req, now, freestyle, questions, options))
  {
    FreshKeyUnused(t);
    SurveyDB.AppendFreshSurvey(t, CreatedRow(t, userId, req, now));
  }

  /** Appending freestyle question `i`'s row moves the creation on by one
      freestyle question. */
  lemma FreestyleAppended(t: Tables, userId: string, req: SurveyRequest, now: Date, i: nat)
    requires i < |req.freestyle|
    ensures var before := InProgress(t, userId, req, now, i, 0, []);
      var q := FreestyleRow(NthKey(t, 1 + i), FreshKey(t), req.freestyle[i].questionText, req.freestyle[i].position);
      before.(freestyle := before.freestyle + [q]) == InProgress(t, userId, req, now, i + 1, 0, [])
  {
    var rows := FreestyleRows(t, req);
    assert rows[..i + 1] == rows[..i] + [rows[i]];
  }

  /** Appending question `i`'s row moves the creation on by one question. */
  lemma QuestionAppended(t: Tables, userId: string, req: SurveyRequest, now: Date, i: nat)
    requires i < |req.constrained|
    ensures var before := InProgress(t, userId, req, now, |req.freestyle|, i, OptionRowsBefore(t, req, i));
      var q := ConstrainedRow(NthKey(t, QuestionIndex(req, i)), FreshKey(t), req.constrained[i].questionText, req.constrained[i].position);
      before.(constrained := before.constrained + [q]) == InProgress(t, userId, req, now, |req.freestyle|, i + 1, OptionRowsBefore(t, req, i))
  {
    var qs := QuestionRows(t, req);
    assert qs[..i + 1] == qs[..i] + [qs[i]];
  }

  /** Appending option `j` of question `i` moves the creation on by one option. */
  lemma OptionAppended(t: Tables, userId: string, req: SurveyRequest, now: Date, i: nat, j: nat, before: seq<OptionRow>)
    requires i < |req.constrained| && j < |req.constrained[i].options|
    ensures var cur := InProgress(t, userId, req, now, |req.freestyle|, i + 1, before + OptionRowsOf(t, req, i, j));
      var o := req.constrained[i].options[j];
      var option := OptionRow(NthKey(t, QuestionIndex(req, i) + 1 + j), NthKey(t, QuestionIndex(req, i)), o.answer, o.position);
      cur.(options := cur.options + [option]) == InProgress(t, userId, req, now, |req.freestyle|, i + 1, before + OptionRowsOf(t, req, i, j + 1))
  {
    var o := req.constrained[i].options[j];
    var option := OptionRow(NthKey(t, QuestionIndex(req, i) + 1 + j), NthKey(t, QuestionIndex(req, i)), o.answer, o.position);
    assert OptionRowsOf(t, req, i, j + 1) == OptionRowsOf(t, req, i, j) + [option];
    assert t.options + (before + OptionRowsOf(t, req, i, j)) + [option]
        == t.options + (before + OptionRowsOf(t, req, i, j + 1));
  }

  /** After a creation, the lookup by the new id finds exactly the created row. */
  lemma CreatedIsFound(t: Tables, userId: string, req: SurveyRequest, now: Date)
    requires WellFormed(t)
    ensures SurveyDB.GetSurvey(Created(t, userId, req, now), FreshKey(t)) == [CreatedRow(t, userId, req, now)]
  {
    CreatedKeepsOldRows(t, userId, req, now);
    NormalizeKeepsKeys(FreshKey(t));
  }

  /** The freestyle loop: statements 1 .. |freestyle|. Answers false when
      the insert numbered `failAt` throws, leaving the partial inserts for the
      caller to roll back. */
  method InsertFreestyle(db: Database, t0: Tables, userId: string, req: SurveyRequest, now: Date, failAt: Option<nat>)
    returns (ok: bool)
    requires db.Valid() && db.saved == Some(t0)
    requires db.tables == InProgress(t0, userId, req, now, 0, 0, [])
    requires failAt.None? || failAt.value >= 1
    modifies db
    ensures db.Valid() && db.saved == Some(t0)
    ensures ok <==> failAt.None? || failAt.value >= 1 + |req.freestyle|
    ensures ok ==> db.tables == InProgress(t0, userId, req, now, |req.freestyle|, 0, [])
  {
    var fs := req.freestyle;
    var n := 1;
    for i := 0 to |fs|
      invariant db.Valid() && db.saved == Some(t0)
      invariant n == 1 + i
      invariant failAt.None? || failAt.value >= n
      invariant db.tables == InProgress(t0, userId, req, now, i, 0, [])
    {
      if failAt == Some(n) {
        return false;
      }
      var row := FreestyleRow(NthKey(t0, n), FreshKey(t0), fs[i].questionText, fs[i].position);
      FreestyleAppended(t0, userId, req, now, i);
      InProgressWellFormed(t0, userId, req, now, i + 1, 0, []);
      db.Write(db.tables.(freestyle := db.tables.freestyle + [row]));
      n := n + 1;
    }
    ok := true;
  }

  /** One insert of the option store: option `j` of question `i`, under the
      question's key, with the key of its own statement. */
  method InsertOption(db: Database, t0: Tables, userId: string, req: SurveyRequest, now: Date, i: nat, j: nat, before: seq<OptionRow>)
    requires i < |req.constrained| && j < |req.constrained[i].options|
    requires db.Valid() && db.saved == Some(t0)
    requires db.tables == InProgress(t0, userId, req, now, |req.freestyle|, i + 1, before + OptionRowsOf(t0, req, i, j))
    modifies db
    ensures db.Valid() && db.saved == Some(t0)
    ensures db.tables == InProgress(t0, userId, req, now, |req.freestyle|, i + 1, before + OptionRowsOf(t0, req, i, j + 1))
  {
    var o := req.constrained[i].options[j];
    var option := OptionRow(NthKey(t0, QuestionIndex(req, i) + 1 + j), NthKey(t0, QuestionIndex(req, i)), o.answer, o.position);
    OptionAppended(t0, userId, req, now, i, j, before);
    InProgressWellFormed(t0, userId, req, now, |req.freestyle|, i + 1, before + OptionRowsOf(t0, req, i, j + 1));
    db.Write(db.tables.(options := db.tables.options + [option]));
  }

  /** One insert of the constrained-question store: question `i`, under the
      new survey, with the key of its own statement. */
  method InsertQuestion(db: Database, t0: Tables, userId: string, req: SurveyRequest, now: Date, i: nat)
    requires i < |req.constrained|
    requires db.Valid() && db.saved == Some(t0)
    requires db.tables == InProgress(t0, userId, req, now, |req.freestyle|, i, OptionRowsBefore(t0, req, i))
    modifies db
    ensures db.Valid() && db.saved == Some(t0)
    ensures db.tables == InProgress(t0, userId, req, now, |req.freestyle|, i + 1, OptionRowsBefore(t0, req, i))
  {
    var c := req.constrained[i];
    var question := ConstrainedRow(NthKey(t0, QuestionIndex(req, i)), FreshKey(t0), c.questionText, c.position);
    QuestionAppended(t0, userId, req, now, i);
    InProgressWellFormed(t0, userId, req, now, |req.freestyle|, i + 1, OptionRowsBefore(t0, req, i));
    db.Write(db.tables.(constrained := db.tables.constrained + [question]));
  }

  /** The option loop of constrained question `i`. */
  method InsertOptions(db: Database, t0: Tables, userId: string, req: SurveyRequest, now: Date, failAt: Option<nat>, i: nat)
    returns (ok: bool)
    requires i < |req.constrained|
    requires db.Valid() && db.saved == Some(t0)
    requires db.tables == InProgress(t0, userId, req, now, |req.freestyle|, i + 1, OptionRowsBefore(t0, req, i))
    requires failAt.None? || failAt.value >= QuestionIndex(req, i) + 1
    modifies db
    ensures db.Valid() && db.saved == Some(t0)
    ensures ok <==> failAt.None? || failAt.value >= QuestionIndex(req, i + 1)
    ensures ok ==> db.tables == InProgress(t0, userId, req, now, |req.freestyle|, i + 1, OptionRowsBefore(t0, req, i + 1))
  {
    QuestionIndexStep(req, i);
    var os := req.constrained[i].options;
    var before := OptionRowsBefore(t0, req, i);
    var n := QuestionIndex(req, i) + 1;
    for j := 0 to |os|
      invariant db.Valid() && db.saved == Some(t0)
      invariant n == QuestionIndex(req, i) + 1 + j
      invariant failAt.None? || failAt.value >= n
      invariant db.tables == InProgress(t0, userId, req, now, |req.freestyle|, i + 1, before + OptionRowsOf(t0, req, i, j))
    {
      if failAt == Some(n) {
        return false;
      }
      InsertOption(db, t0, userId, req, now, i, j, before);
      n := n + 1;
    }
    ok := true;
  }

  /** The constrained loop: each question insert, then its options. */
  method InsertConstrained(db: Database, t0: Tables, userId: string, req: SurveyRequest, now: Date, failAt: Option<nat>)
    returns (ok: bool)
    requires db.Valid() && db.saved == Some(t0)
    requires db.tables == InProgress(t0, userId, req, now, |req.freestyle|, 0, [])
    requires failAt.None? || failAt.value >= 1 + |req.freestyle|
    modifies db
    ensures db.Valid() && db.saved == Some(t0)
    ensures ok <==> failAt.None? || failAt.value >= Statements(req)
    ensures ok ==> db.tables == Created(t0, userId, req, now)
  {
    var cs := req.constrained;
    var n := 1 + |req.freestyle|;
    for i := 0 to |cs|
      invariant db.Valid() && db.saved == Some(t0)
      invariant n == QuestionIndex(req, i)
      invariant failAt.None? || failAt.value >= n
      invariant db.tables == InProgress(t0, userId, req, now, |req.freestyle|, i, OptionRowsBefore(t0, req, i))
    {
      if failAt == Some(n) {
        QuestionIndexIncreasing(req, i, |cs|);
        return false;
      }
      InsertQuestion(db, t0, userId, req, now, i);
      ok := InsertOptions(db, t0, userId, req, now, failAt, i);
      if !ok {
        QuestionIndexIncreasing(req, i, i + 1);
        return false;
      }
      n := QuestionIndex(req, i + 1);
    }
    assert FreestyleRows(t0, req)[..|req.freestyle|] == FreestyleRows(t0, req);
    assert QuestionRows(t0, req)[..|cs|] == QuestionRows(t0, req) && cs[..|cs|] == cs;
    ok := true;
  }

  /** Every insert of a creation, in order: the survey (statement 0), the
      freestyle questions, then the constrained questions with their options.
      Answers false when the insert numbered `failAt` throws. */
  method InsertAll(db: Database, t0: Tables, userId: string, req: SurveyRequest, now: Date, failAt: Option<nat>)
    returns (ok: bool)
    requires db.Valid() && db.saved == Some(t0) && db.tables == t0
    modifies db
    ensures db.Valid() && db.saved == Some(t0)
    ensures ok <==> failAt.None? || failAt.value >= Statements(req)
    ensures ok ==> db.tables == Created(t0, userId, req, now)
  {
    if failAt == Some(0) {
      return false;
    }
    var surveyId := SurveyDB.CreateSurvey(db, req.title, req.description,
      if req.startDate.Some? then req.startDate else Some(now), req.endDate, req.secured, userId, now);
    assert CreatedRow(t0, userId, req, now) == SurveyDB.NewSurveyRow(t0, req.title, req.description,
      if req.startDate.Some? then req.startDate else Some(now), req.endDate, req.secured, userId, now);
    InProgressStart(t0, userId, req, now);
    assert db.tables == InProgress(t0, userId, req, now, 0, 0, []);
    ok := InsertFreestyle(db, t0, userId, req, now, failAt);
    if ok {
      ok := InsertConstrained(db, t0, userId, req, now, failAt);
    } else {
      assert failAt.value < Statements(req);
    }
  }

  /** createSurvey: inside one transaction, insert the survey, then each
      freestyle question, then each constrained question followed by its
      options, and commit; the insert numbered `failAt` (counting from 0), if
      there is one, throws instead, and everything is rolled back. On success
      the response is 201 with the stored survey read back; on failure 500,
      with the tables as they were. */
  method CreateSurvey(db: Database, userId: string, req: SurveyRequest, now: Date, failAt: Option<nat>)
    returns (resp: Response<SurveyDoc>)
    requires db.Valid() && !db.InTransaction()
    modifies db
    ensures db.Valid() && !db.InTransaction()
    ensures resp.Sent? && (resp.status == 201 || resp.status == 500)
    ensures resp.status == 201 <==> failAt.None? || failAt.value >= Statements(req)
    ensures resp.status == 500 ==> db.tables == old(db.tables) && resp.payload.None?
    ensures resp.status == 201 ==> db.tables == Created(old(db.tables), userId, req, now)
    ensures resp.status == 201 ==> resp.payload == Some(AssembledDoc(db.tables, CreatedRow(old(db.tables), userId, req, now)))
  {
    var t0 := db.tables;
    db.Begin();
    var ok := InsertAll(db, t0, userId, req, now, failAt);
    if !ok {
      db.Rollback();
      return Sent(500, None);
    }
    db.Commit();
    CreatedIsFound(t0, userId, req, now);
    var doc := GetSurvey(db, FreshKey(t0));
    resp := Sent(201, doc);
  }

  // ---------------------------------------------------------------------------
  // The search and count handlers
  // ---------------------------------------------------------------------------

  /** The query string of a search or count request. A value is absent when
      the parameter is missing or empty. */
  datatype SearchQuery = SearchQuery(
    title: Option<string>,
    description: Option<string>,
    startDate: Option<Date>,
    endDate: Option<Date>,
    pageNumber: Option<nat>,
    pageSize: Option<nat>)

  /** The values the handlers pass on to the store. */
  datatype SearchParams = SearchParams(
    title: Option<string>,
    description: Option<string>,
    startDate: Option<Date>,
    endDate: Option<Date>,
    pageNumber: nat,
    pageSize: nat)

  /** The defaulting at the top of every search and count handler. */
  function SearchDefaults(q: SearchQuery): (p: SearchParams)
    ensures q.pageNumber.None? ==> p.pageNumber == 0
    ensures q.pageSize.None? ==> p.pageSize == 5
    ensures q.pageNumber.Some? ==> p.pageNumber == q.pageNumber.value
    ensures q.pageSize.Some? ==> p.pageSize == q.pageSize.value
    ensures p.title.None? <==> q.title.None? || q.title == Some("")
    ensures p.description.None? <==> q.description.None? || q.description == Some("")
    ensures p.title.Some? ==> p.title == q.title
    ensures p.startDate == q.startDate && p.endDate == q.endDate
  {
    SearchParams(Truthy(q.title), Truthy(q.description), q.startDate, q.endDate,
                 q.pageNumber.GetOr(0), q.pageSize.GetOr(5))
  }

  /** The second half of the search handlers: every id the store returned is
      looked up and assembled, in the store's order. One failed lookup rejects
      the whole batch, and as nothing catches it, no response is sent. */
  method AssembleAll(db: Database, ids: seq<string>) returns (resp: Response<seq<SurveyDoc>>)
    ensures resp.NoResponse? <==> exists i :: 0 <= i < |ids| && |SurveyDB.GetSurvey(db.tables, ids[i])| != 1
    ensures resp.Sent? ==> resp.status == 200 && resp.payload.Some? && |resp.payload.value| == |ids|
    ensures resp.Sent? ==> forall i :: 0 <= i < |ids| ==>
      && resp.payload.value[i] == AssembledDoc(db.tables, SurveyDB.GetSurvey(db.tables, ids[i])[0])
      && resp.payload.value[i].survey.id == Normalize(ids[i])
  {
    var docs: seq<SurveyDoc> := [];
    for i := 0 to |ids|
      invariant |docs| == i
      invariant forall k :: 0 <= k < i ==>
        && |SurveyDB.GetSurvey(db.tables, ids[k])| == 1
        && docs[k] == AssembledDoc(db.tables, SurveyDB.GetSurvey(db.tables, ids[k])[0])
        && docs[k].survey.id == Normalize(ids[k])
    {
      var doc := GetSurvey(db, ids[i]);
      if doc.None? {
        return NoResponse;
      }
      docs := docs + [doc.value];
    }
    resp := Sent(200, Some(docs));
  }

  /** The ids a search of the older store returns all resolve: each names
      exactly one survey, which meets the search's conditions. So assembling
      them always answers 200. */
  lemma SearchedIdsResolve(t: Tables, c: SurveyDB.Criteria, pageNumber: nat, pageSize: nat, userId: string)
    requires WellFormed(t)
    requires forall s :: s in t.surveys ==> '-' !in s.id
    ensures forall id :: id in SurveyDB.SearchPublicSurveys(t, c, pageNumber, pageSize) ==>
      |SurveyDB.GetSurvey(t, id)| == 1 && SurveyDB.PublicMatches(c, SurveyDB.GetSurvey(t, id)[0])
    ensures forall id :: id in SurveyDB.SearchSecuredSurveys(t, c, pageNumber, pageSize, userId) ==>
      |SurveyDB.GetSurvey(t, id)| == 1 && SurveyDB.SecuredMatches(t, Normalize(userId), c, SurveyDB.GetSurvey(t, id)[0])
  {
    SurveyDB.PageOfIds(SurveyDB.PublicRows(t, c), pageNumber, pageSize);
    SurveyDB.PageOfIds(SurveyDB.SecuredRows(t, userId, c), pageNumber, pageSize);
    forall id | id in SurveyDB.SearchPublicSurveys(t, c, pageNumber, pageSize)
      ensures |SurveyDB.GetSurvey(t, id)| == 1 && SurveyDB.PublicMatches(c, SurveyDB.GetSurvey(t, id)[0])
    {
      var r := SurveyDB.SearchPublicSurveys(t, c, pageNumber, pageSize);
      var i :| 0 <= i < |r| && r[i] == id;
      var s :| s in SurveyDB.PublicRows(t, c) && s.id == id;
      ResolvesTo(t, s);
    }
    forall id | id in SurveyDB.SearchSecuredSurveys(t, c, pageNumber, pageSize, userId)
      ensures |SurveyDB.GetSurvey(t, id)| == 1 && SurveyDB.SecuredMatches(t, Normalize(userId), c, SurveyDB.GetSurvey(t, id)[0])
    {
      var r := SurveyDB.SearchSecuredSurveys(t, c, pageNumber, pageSize, userId);
      var i :| 0 <= i < |r| && r[i] == id;
      var s :| s in SurveyDB.SecuredRows(t, userId, c) && s.id == id;
      ResolvesTo(t, s);
    }
  }

  /** The stored id of a survey finds that survey and no other. */
  lemma ResolvesTo(t: Tables, s: SurveyRow)
    requires WellFormed(t) && s in t.surveys && '-' !in s.id
    ensures SurveyDB.GetSurvey(t, s.id) == [s]
  {
    NormalizeKeepsKeys(s.id);
    var r := SurveyDB.GetSurvey(t, s.id);
    AtMostOneSurvey(t, s.id);
    assert s in r;
    assert r[0] == s by {
      SameIdSameSurvey(t.surveys, r[0], s);
    }
  }
}
