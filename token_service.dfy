/**
 * Token minting (src/service/TokenService.js): inside one transaction, check
 * that the caller owns the survey, create `amount` tokens for it one after
 * the other, commit, and answer the created tokens in creation order.
 *
 * The handler file imports the older store (src/db/SurveyDB.js), which has
 * no getSurveyByIdAndUserId, so the lookup as written throws and every
 * request ends in the catch with 500. The model uses the newer store's
 * getSurveyByIdAndUserId instead, the only definition of that query. The token store is not part of this model; it is
 * taken to insert one row under the hyphen-stripped survey id, with a
 * generated id.
 */
module TokenService {
  import opened Ids
  import opened Rows
  import opened Transactions
  import SqlSurveyDB

  /** `for (i = 0; i < Number(amount); i++)` runs this often for an integer amount. */
  function TokenCount(amount: int): (n: nat)
    ensures amount <= 0 ==> n == 0
    ensures amount > 0 ==> n == amount
  {
    if amount < 0 then 0 else amount
  }

  /** The first `count` tokens a mint adds for the survey, in creation order;
      token `i` gets the `i`-th generated key. */
  function MintedTokens(t: Tables, surveyKey: string, count: nat): (r: seq<TokenRow>)
    ensures |r| == count
    ensures forall i :: 0 <= i < count ==> r[i].surveyId == surveyKey
  {
    seq(count, i requires 0 <= i < count => TokenRow(NthKey(t, i), surveyKey))
  }

  /** Minted tokens are pairwise distinct and clash with no key in use before. */
  lemma MintedTokensFresh(t: Tables, surveyKey: string, count: nat)
    ensures var r := MintedTokens(t, surveyKey, count);
      && (forall i, j :: 0 <= i < j < count ==> r[i].id != r[j].id)
      && (forall i :: 0 <= i < count ==> Unused(t, r[i].id))
      && (forall i, k :: 0 <= i < count && k in t.tokens ==> r[i].id != k.id)
  {
    var r := MintedTokens(t, surveyKey, count);
    forall i, j | 0 <= i < j < count ensures r[i].id != r[j].id {
      NthKeysDistinct(t, i, j);
    }
    forall i | 0 <= i < count ensures Unused(t, r[i].id) {
      NthKeyUnused(t, i);
    }
  }

  /** Whether the caller may mint tokens for the survey. */
  predicate Owns(t: Tables, userId: string, surveyId: string)
  {
    SqlSurveyDB.GetSurveyByIdAndUserId(t, surveyId, userId) != []
  }

  /** createToken. When the caller owns the survey, all tokens are created and
      then committed (201 with the list), unless the token insert numbered
      `failAt` throws, which rolls everything back (500). Otherwise the
      transaction is rolled back (403). Only the 201 path changes the tables,
      and only by the new tokens. */
  method CreateToken(db: Database, userId: string, surveyId: string, amount: int, failAt: Option<nat>)
    returns (resp: Response<seq<TokenRow>>)
    requires db.Valid() && !db.InTransaction()
    modifies db
    ensures db.Valid() && !db.InTransaction()
    ensures !Owns(old(db.tables), userId, surveyId) ==> resp == Sent(403, None) && db.tables == old(db.tables)
    ensures (Owns(old(db.tables), userId, surveyId) && failAt.Some? && failAt.value < TokenCount(amount))
              ==> resp == Sent(500, None) && db.tables == old(db.tables)
    ensures (Owns(old(db.tables), userId, surveyId) && (failAt.None? || failAt.value >= TokenCount(amount)))
              ==> var minted := MintedTokens(old(db.tables), Normalize(surveyId), TokenCount(amount));
                  && resp == Sent(201, Some(minted))
                  && db.tables == old(db.tables).(tokens := old(db.tables).tokens + minted)
  {
    var t0 := db.tables;
    db.Begin();
    var surveys := SqlSurveyDB.GetSurveyByIdAndUserId(db.tables, surveyId, userId);
    if |surveys| > 0 {
      var key := Normalize(surveyId);
      var count := TokenCount(amount);
      var created: seq<TokenRow> := [];
      for i := 0 to count
        invariant db.Valid() && db.saved == Some(t0)
        invariant failAt.None? || failAt.value >= i
        invariant created == MintedTokens(t0, key, i)
        invariant db.tables == t0.(tokens := t0.tokens + created)
      {
        if failAt == Some(i) {
          db.Rollback();
          return Sent(500, None);
        }
        var token := TokenRow(NthKey(t0, i), key);
        db.Write(db.tables.(tokens := db.tables.tokens + [token]));
        assert MintedTokens(t0, key, i + 1) == created + [token];
        created := created + [token];
      }
      db.Commit();
      // The second loop of the handler: each created row is read back
      // through queryConvert and pushed, which keeps the list as it is.
      var ret: seq<TokenRow> := [];
      for i := 0 to |created|
        invariant ret == created[..i]
      {
        ret := ret + [created[i]];
      }
      assert created[..|created|] == created;
      return Sent(201, Some(ret));
    }
    db.Rollback();
    resp := Sent(403, None);
  }

  /** Minting keeps the ownership check's answer: the new tokens touch no survey. */
  lemma MintingKeepsSurveys(t: Tables, userId: string, surveyId: string, count: nat)
    ensures var after := t.(tokens := t.tokens + MintedTokens(t, Normalize(surveyId), count));
      && after.surveys == t.surveys
      && (Owns(after, userId, surveyId) <==> Owns(t, userId, surveyId))
      && (forall k :: k in after.tokens && k !in t.tokens ==> k.surveyId == Normalize(surveyId))
  {
    var minted := MintedTokens(t, Normalize(surveyId), count);
    forall k | k in t.tokens + minted && k !in t.tokens ensures k.surveyId == Normalize(surveyId) {
      assert k in minted;
    }
  }
}
