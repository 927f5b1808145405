/**
 * The relational schema as values: one datatype per table row, the whole
 * database as a `Tables` value, and the nested survey document ("aggregate")
 * that the read paths build.
 *
 * surveys(id, title, description, start_date, end_date, secured, user_id, created)
 * freestyle_questions(id, survey_id, question_text, position)
 * constrained_questions(id, survey_id, question_text, position)
 * constrained_questions_options(id, constrained_question_id, answer, position)
 * tokens(id, survey_id)
 * users(id, username, email, hashed_password)
 *
 * Every id column holds a normalized key (see Ids.Normalize). Dates are
 * abstract ordered integers.
 */
module Rows {
  import opened Seqs

  type Date = int

  /** SQL NULL / JavaScript null or absent. */
  datatype Option<+T> = None | Some(value: T) {
    function GetOr(default: T): T {
      match this
      case Some(v) => v
      case None => default
    }
  }

  /** `value ? value : null` on a string: the empty string is falsy. */
  function Truthy(s: Option<string>): (r: Option<string>)
    ensures r.None? <==> s.None? || s.value == ""
    ensures r.Some? ==> r == s
  {
    if s.Some? && s.value != "" then s else None
  }

  datatype SurveyRow = SurveyRow(
    id: string,
    title: string,
    description: string,
    startDate: Option<Date>,
    endDate: Option<Date>,
    secured: bool,
    userId: string,
    created: Date)

  datatype FreestyleRow = FreestyleRow(id: string, surveyId: string, questionText: string, position: int)
  datatype ConstrainedRow = ConstrainedRow(id: string, surveyId: string, questionText: string, position: int)
  datatype OptionRow = OptionRow(id: string, questionId: string, answer: string, position: int)
  datatype TokenRow = TokenRow(id: string, surveyId: string)
  datatype UserRow = UserRow(id: string, username: string, email: string, hashedPassword: string)

  datatype Tables = Tables(
    surveys: seq<SurveyRow>,
    freestyle: seq<FreestyleRow>,
    constrained: seq<ConstrainedRow>,
    options: seq<OptionRow>,
    tokens: seq<TokenRow>,
    users: seq<UserRow>)

  /** The nested document of one survey. `options` is a nullable list: the
      newer store leaves it null for a question without options. */
  datatype FreestyleDoc = FreestyleDoc(id: string, questionText: string, position: int)
  datatype OptionDoc = OptionDoc(id: string, answer: string, position: int)
  datatype ConstrainedDoc = ConstrainedDoc(id: string, questionText: string, position: int, options: Option<seq<OptionDoc>>)
  /** `constrained_questions` and `freestyle_questions` are JSON lists that may be null. */
  datatype SurveyDoc = SurveyDoc(survey: SurveyRow, constrained: Option<seq<ConstrainedDoc>>, freestyle: Option<seq<FreestyleDoc>>)

  /** What a handler sends: a status with an optional payload, or nothing at all. */
  datatype Response<+T> = Sent(status: int, payload: Option<T>) | NoResponse

  // ---------------------------------------------------------------------------
  // Row selections shared by both store generations and the services
  // ---------------------------------------------------------------------------

  /** `s.id = key`. */
  function HasId(key: string): SurveyRow -> bool
  {
    (s: SurveyRow) => s.id == key
  }

  function SurveysWithId(t: Tables, key: string): (r: seq<SurveyRow>)
    ensures forall s :: s in r <==> s in t.surveys && s.id == key
  {
    Filter(t.surveys, HasId(key))
  }

  /** `q.survey_id = surveyKey` on the freestyle question table. */
  function FreestyleIn(surveyKey: string): FreestyleRow -> bool
  {
    (q: FreestyleRow) => q.surveyId == surveyKey
  }

  function FreestyleOf(t: Tables, surveyKey: string): (r: seq<FreestyleRow>)
    ensures forall q :: q in r <==> q in t.freestyle && q.surveyId == surveyKey
  {
    Filter(t.freestyle, FreestyleIn(surveyKey))
  }

  /** `q.survey_id = surveyKey` on the constrained question table. */
  function ConstrainedIn(surveyKey: string): ConstrainedRow -> bool
  {
    (q: ConstrainedRow) => q.surveyId == surveyKey
  }

  function ConstrainedOf(t: Tables, surveyKey: string): (r: seq<ConstrainedRow>)
    ensures forall q :: q in r <==> q in t.constrained && q.surveyId == surveyKey
  {
    Filter(t.constrained, ConstrainedIn(surveyKey))
  }

  /** `o.question_id = questionKey`, the selection of one question's options. */
  function AnswersTo(questionKey: string): OptionRow -> bool
  {
    (o: OptionRow) => o.questionId == questionKey
  }

  function OptionsOf(t: Tables, questionKey: string): (r: seq<OptionRow>)
    ensures forall o :: o in r <==> o in t.options && o.questionId == questionKey
  {
    Filter(t.options, AnswersTo(questionKey))
  }

  function UserExists(t: Tables, key: string): bool
  {
    exists u :: u in t.users && u.id == key
  }

  function FreestyleDocs(qs: seq<FreestyleRow>): (r: seq<FreestyleDoc>)
    ensures |r| == |qs|
    ensures forall i :: 0 <= i < |qs| ==> r[i] == FreestyleDoc(qs[i].id, qs[i].questionText, qs[i].position)
  {
    seq(|qs|, i requires 0 <= i < |qs| => FreestyleDoc(qs[i].id, qs[i].questionText, qs[i].position))
  }

  function OptionDocs(os: seq<OptionRow>): (r: seq<OptionDoc>)
    ensures |r| == |os|
    ensures forall i :: 0 <= i < |os| ==> r[i] == OptionDoc(os[i].id, os[i].answer, os[i].position)
  {
    seq(|os|, i requires 0 <= i < |os| => OptionDoc(os[i].id, os[i].answer, os[i].position))
  }

  // ---------------------------------------------------------------------------
  // Keys: uniqueness of primary keys and fresh keys for inserts
  // ---------------------------------------------------------------------------

  ghost predicate UniqueSurveyIds(s: seq<SurveyRow>)
  {
    forall i, j :: 0 <= i < j < |s| ==> s[i].id != s[j].id
  }

  ghost predicate UniqueUserIds(s: seq<UserRow>)
  {
    forall i, j :: 0 <= i < j < |s| ==> s[i].id != s[j].id
  }

  /** The primary keys the store relies on are unique. */
  ghost predicate WellFormed(t: Tables)
  {
    UniqueSurveyIds(t.surveys) && UniqueUserIds(t.users)
  }

  /** With unique survey ids, at most one row passes a filter that fixes the id. */
  lemma {:induction false} AtMostOneSurveyWithId(s: seq<SurveyRow>, key: string, p: SurveyRow -> bool)
    requires UniqueSurveyIds(s)
    requires forall r :: r in s && p(r) ==> r.id == key
    ensures |Filter(s, p)| <= 1
  {
    if s != [] {
      assert UniqueSurveyIds(s[1..]);
      AtMostOneSurveyWithId(s[1..], key, p);
      if p(s[0]) {
        forall r | r in s[1..] ensures r.id != key {
          var k :| 0 <= k < |s[1..]| && s[1..][k] == r;
          assert s[k + 1] == r;
        }
        FilterKeepsNone(s[1..], p);
      }
    }
  }

  /** At most one survey has a given key. */
  lemma AtMostOneSurvey(t: Tables, key: string)
    requires WellFormed(t)
    ensures |SurveysWithId(t, key)| <= 1
  {
    AtMostOneSurveyWithId(t.surveys, key, (s: SurveyRow) => s.id == key);
  }

  /** Two rows of a table with unique ids that share their id are the same row. */
  lemma SameIdSameSurvey(s: seq<SurveyRow>, a: SurveyRow, b: SurveyRow)
    requires UniqueSurveyIds(s) && a in s && b in s && a.id == b.id
    ensures a == b
  {
    var i :| 0 <= i < |s| && s[i] == a;
    var j :| 0 <= j < |s| && s[j] == b;
    assert i == j;
  }

  /** Deleting rows keeps ids unique. */
  lemma {:induction false} FilterKeepsUniqueSurveyIds(s: seq<SurveyRow>, p: SurveyRow -> bool)
    requires UniqueSurveyIds(s)
    ensures UniqueSurveyIds(Filter(s, p))
  {
    if s != [] {
      assert UniqueSurveyIds(s[1..]);
      FilterKeepsUniqueSurveyIds(s[1..], p);
      var rest := Filter(s[1..], p);
      forall r | r in rest ensures r.id != s[0].id {
        var k :| 0 <= k < |s[1..]| && s[1..][k] == r;
        assert s[k + 1] == r;
      }
      if p(s[0]) {
        var r := [s[0]] + rest;
        forall i, j | 0 <= i < j < |r| ensures r[i].id != r[j].id {
          if i == 0 {
            assert r[j] in rest;
          } else {
            assert r[i] == rest[i - 1] && r[j] == rest[j - 1];
          }
        }
      }
    }
  }

  lemma {:induction false} FilterKeepsUniqueUserIds(s: seq<UserRow>, p: UserRow -> bool)
    requires UniqueUserIds(s)
    ensures UniqueUserIds(Filter(s, p))
  {
    if s != [] {
      assert UniqueUserIds(s[1..]);
      FilterKeepsUniqueUserIds(s[1..], p);
      var rest := Filter(s[1..], p);
      forall r | r in rest ensures r.id != s[0].id {
        var k :| 0 <= k < |s[1..]| && s[1..][k] == r;
        assert s[k + 1] == r;
      }
      if p(s[0]) {
        var r := [s[0]] + rest;
        forall i, j | 0 <= i < j < |r| ensures r[i].id != r[j].id {
          if i == 0 {
            assert r[j] in rest;
          } else {
            assert r[i] == rest[i - 1] && r[j] == rest[j - 1];
          }
        }
      }
    }
  }

  /** No row of any table uses `key`, as its own id or as a reference. */
  ghost predicate Unused(t: Tables, key: string)
  {
    && (forall s :: s in t.surveys ==> s.id != key && s.userId != key)
    && (forall q :: q in t.freestyle ==> q.id != key && q.surveyId != key)
    && (forall q :: q in t.constrained ==> q.id != key && q.surveyId != key)
    && (forall o :: o in t.options ==> o.id != key && o.questionId != key)
    && (forall k :: k in t.tokens ==> k.id != key && k.surveyId != key)
    && (forall u :: u in t.users ==> u.id != key)
  }

  /** The longest of the two keys of each row. */
  function Longest<R>(rows: seq<R>, keys: R -> (string, string)): nat
  {
    if rows == [] then 0
    else
      var rest := Longest(rows[1..], keys);
      var k := keys(rows[0]);
      var m := if |k.0| < |k.1| then |k.1| else |k.0|;
      if m < rest then rest else m
  }

  lemma {:induction false} LongestBound<R(!new)>(rows: seq<R>, keys: R -> (string, string))
    ensures forall r :: r in rows ==> |keys(r).0| <= Longest(rows, keys) && |keys(r).1| <= Longest(rows, keys)
  {
    if rows != [] {
      LongestBound(rows[1..], keys);
      assert forall r :: r in rows ==> r == rows[0] || r in rows[1..];
    }
  }

  /** How long a key must be to be longer than every key in use. */
  function KeyBase(t: Tables): nat
  {
    Longest(t.surveys, (s: SurveyRow) => (s.id, s.userId))
    + Longest(t.freestyle, (q: FreestyleRow) => (q.id, q.surveyId))
    + Longest(t.constrained, (q: ConstrainedRow) => (q.id, q.surveyId))
    + Longest(t.options, (o: OptionRow) => (o.id, o.questionId))
    + Longest(t.tokens, (k: TokenRow) => (k.id, k.surveyId))
    + Longest(t.users, (u: UserRow) => (u.id, u.id))
  }

  /** The `n`-th key the database generates while the tables are `t`
      (counting from 0): longer than every key in use, and of a different
      length for every `n`. Stands in for Postgres' uuid generation. */
  function NthKey(t: Tables, n: nat): (key: string)
    ensures |key| == 1 + n + KeyBase(t)
  {
    seq(1 + n + KeyBase(t), _ => 'k')
  }

  /** A generated key clashes with no key in use and has no `-`. */
  lemma NthKeyUnused(t: Tables, n: nat)
    ensures Unused(t, NthKey(t, n))
    ensures '-' !in NthKey(t, n)
  {
    LongestBound(t.surveys, (s: SurveyRow) => (s.id, s.userId));
    LongestBound(t.freestyle, (q: FreestyleRow) => (q.id, q.surveyId));
    LongestBound(t.constrained, (q: ConstrainedRow) => (q.id, q.surveyId));
    LongestBound(t.options, (o: OptionRow) => (o.id, o.questionId));
    LongestBound(t.tokens, (k: TokenRow) => (k.id, k.surveyId));
    LongestBound(t.users, (u: UserRow) => (u.id, u.id));
  }

  /** Keys generated from the same tables differ when their positions differ. */
  lemma NthKeysDistinct(t: Tables, m: nat, n: nat)
    requires m != n
    ensures NthKey(t, m) != NthKey(t, n)
  {
  }

  /** The key of a single insert. */
  function FreshKey(t: Tables): string
  {
    NthKey(t, 0)
  }

  /** The key of a single insert clashes with no key in use and has no `-`. */
  lemma FreshKeyUnused(t: Tables)
    ensures Unused(t, FreshKey(t))
    ensures '-' !in FreshKey(t)
  {
    NthKeyUnused(t, 0);
  }
}
