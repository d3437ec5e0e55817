/**
 * The two session tables behind `save_session`, `save_recommendation_session`
 * and `get_recommendation_session`. Each table is a map from session id to
 * row: the unique `session_id` column admits one row per id, and a
 * recommendation row's id must be a student session's id (its foreign key).
 * A transaction either commits whole or is rolled back; whether the commit
 * goes through is an input.
 */
module SessionStore {
  import opened Wrappers
  import opened JsonValues
  import opened Uuids

  /** A `student_information_sessions` row. */
  datatype StudentRow = StudentRow(formData: Json, profileSummary: string, timestamp: string)

  /** A `recommendation_sessions` row. */
  datatype RecommendationRow = RecommendationRow(
    searchQueries: Json, searchResults: Json, recommendations: Json, timestamp: string)

  /** A session id as the helpers accept it: a string to be parsed, or a UUID. */
  datatype SessionKey = ByText(text: string) | ById(id: Uuid)

  /** The dict `get_recommendation_session` returns for a stored row. */
  datatype RecommendationRecord = RecommendationRecord(
    sessionId: string, searchQueries: Json, searchResults: Json, recommendations: Json, timestamp: string)

  const BadlyFormed := "badly formed hexadecimal UUID string"
  const ForeignKeyViolation := "insert violates the foreign key to student_information_sessions"
  const UniqueViolation := "duplicate key value violates the unique session_id constraint"

  /** `uuid.UUID(session_id) if isinstance(session_id, str) else session_id`. */
  function Resolve(key: SessionKey): (r: Result<Uuid>)
    ensures key.ById? ==> r == Success(key.id)
    ensures key.ByText? ==> (r.Success? <==> ParseUuid(key.text).Some?)
  {
    match key
    case ById(id) => Success(id)
    case ByText(text) =>
      match ParseUuid(text)
      case Some(id) => Success(id)
      case None => Failure(BadlyFormed)
  }

  /**
   * The recommendation table after saving under `id`: an existing row takes
   * the new queries, results and recommendations and the time `now`; a new
   * row gets them with the column default `insertStamp`.
   */
  function Upsert(rows: map<Uuid, RecommendationRow>, id: Uuid,
                  searchQueries: Json, searchResults: Json, recommendations: Json,
                  now: string, insertStamp: string): (after: map<Uuid, RecommendationRow>)
    ensures after.Keys == rows.Keys + {id}
  {
    if id in rows then
      rows[id := rows[id].(searchQueries := searchQueries, searchResults := searchResults,
                           recommendations := recommendations, timestamp := now)]
    else
      rows[id := RecommendationRow(searchQueries, searchResults, recommendations, insertStamp)]
  }

  /**
   * After a save there is exactly one row under `id`, holding the new
   * values; it is refreshed to `now` when it existed and stamped with the
   * insert default otherwise; every other row is as it was.
   */
  lemma UpsertRows(rows: map<Uuid, RecommendationRow>, id: Uuid,
                   searchQueries: Json, searchResults: Json, recommendations: Json,
                   now: string, insertStamp: string)
    ensures var after := Upsert(rows, id, searchQueries, searchResults, recommendations, now, insertStamp);
      after[id].searchQueries == searchQueries &&
      after[id].searchResults == searchResults &&
      after[id].recommendations == recommendations &&
      after[id].timestamp == (if id in rows then now else insertStamp) &&
      forall other :: other in rows && other != id ==> after[other] == rows[other]
  {
  }

  /** `get_recommendation_session` over the recommendation table. */
  function Lookup(rows: map<Uuid, RecommendationRow>, key: SessionKey): (r: Result<Option<RecommendationRecord>>)
    ensures r.Success? <==> Resolve(key).Success?
    ensures r.Success? ==> (r.value.Some? <==> Resolve(key).value in rows)
  {
    match Resolve(key)
    case Failure(e) => Failure(e)
    case Success(id) =>
      if id in rows then
        var row := rows[id];
        Success(Some(RecommendationRecord(UuidText(id), row.searchQueries, row.searchResults,
                                          row.recommendations, row.timestamp)))
      else Success(None)
  }

  /** The string and UUID forms of an id, hyphenated or bare, address the same row. */
  lemma LookupForms(rows: map<Uuid, RecommendationRow>, id: Uuid)
    ensures Lookup(rows, ByText(UuidText(id))) == Lookup(rows, ById(id))
    ensures Lookup(rows, ByText(id)) == Lookup(rows, ById(id))
  {
    ParseUuidText(id);
    ParseUuidHex(id);
  }

  /** The reported `session_id` reads back as the id the row is stored under. */
  lemma LookupReportsId(rows: map<Uuid, RecommendationRow>, key: SessionKey)
    requires Lookup(rows, key).Success? && Lookup(rows, key).value.Some?
    ensures ParseUuid(Lookup(rows, key).value.value.sessionId) == Some(Resolve(key).value)
  {
    ParseUuidText(Resolve(key).value);
  }

  /** Reading right after a save returns what was saved, with the save's time as written by the fixed default. */
  lemma SaveThenLookup(rows: map<Uuid, RecommendationRow>, id: Uuid,
                       searchQueries: Json, searchResults: Json, recommendations: Json, now: string)
    ensures Lookup(Upsert(rows, id, searchQueries, searchResults, recommendations, now, now), ById(id))
      == Success(Some(RecommendationRecord(UuidText(id), searchQueries, searchResults, recommendations, now)))
  {
  }

  /**
   * As written, a row inserted by `save_recommendation_session` is stamped
   * with the time the models were imported, however long ago that was.
   */
  lemma StaleInsertStamp(id: Uuid, searchQueries: Json, searchResults: Json, recommendations: Json,
                         importTime: string, now: string)
    requires importTime != now
    ensures var saved := Upsert(map[], id, searchQueries, searchResults, recommendations, now, importTime);
      Lookup(saved, ById(id)).value.value.timestamp == importTime &&
      Lookup(saved, ById(id)).value.value.timestamp != now
  {
  }

  /** The two tables, with the moment `models.py` was imported (when the buggy column default was taken). */
  class Database {
    var students: map<Uuid, StudentRow>
    var recommendations: map<Uuid, RecommendationRow>
    const importTime: string

    /** Every recommendation row belongs to a student session. */
    predicate Valid()
      reads this
    {
      recommendations.Keys <= students.Keys
    }

    /** Empty tables, created after the models were imported at `importTime`. */
    constructor(importTime: string)
      ensures Valid()
      ensures students == map[] && recommendations == map[]
      ensures this.importTime == importTime
    {
      students := map[];
      recommendations := map[];
      this.importTime := importTime;
    }

    /**
     * `save_session`: a new student row under the generated id `freshId`,
     * stamped `now`; a taken id or a failed commit rolls back and raises.
     */
    method SaveSession(formData: Json, summary: string, freshId: Uuid, now: string, commitError: Option<string>)
      returns (r: Result<Uuid>)
      requires Valid()
      modifies this
      ensures Valid()
      ensures r.Success? <==> freshId !in old(students) && commitError.None?
      ensures r.Success? ==> r.value == freshId
      ensures r.Success? ==> students == old(students)[freshId := StudentRow(formData, summary, now)]
      ensures r.Failure? ==> students == old(students)
      ensures recommendations == old(recommendations)
    {
      if freshId in students {
        return Failure(UniqueViolation);
      }
      if commitError.Some? {
        return Failure(commitError.value);
      }
      students := students[freshId := StudentRow(formData, summary, now)];
      r := Success(freshId);
    }

    /**
     * `save_recommendation_session` as written: update or insert under the
     * parsed id, the insert stamped with the import-time default. A malformed
     * id, an insert for an unknown student session or a failed commit rolls
     * back and raises.
     */
    method SaveRecommendationSession(key: SessionKey, searchQueries: Json, searchResults: Json,
                                     recs: Json, now: string, commitError: Option<string>)
      returns (r: Result<()>)
      requires Valid()
      modifies this
      ensures Valid()
      ensures r.Success? <==>
        Resolve(key).Success? && commitError.None? &&
        (Resolve(key).value in old(recommendations) || Resolve(key).value in old(students))
      ensures r.Success? ==>
        recommendations == Upsert(old(recommendations), Resolve(key).value, searchQueries, searchResults, recs, now, importTime)
      ensures r.Failure? ==> recommendations == old(recommendations)
      ensures students == old(students)
    {
      r := Store(key, searchQueries, searchResults, recs, now, importTime, commitError);
    }

    /** `save_recommendation_session` with the insert stamped at the time of the save. */
    method SaveRecommendationSessionFixed(key: SessionKey, searchQueries: Json, searchResults: Json,
                                          recs: Json, now: string, commitError: Option<string>)
      returns (r: Result<()>)
      requires Valid()
      modifies this
      ensures Valid()
      ensures r.Success? <==>
        Resolve(key).Success? && commitError.None? &&
        (Resolve(key).value in old(recommendations) || Resolve(key).value in old(students))
      ensures r.Success? ==>
        recommendations == Upsert(old(recommendations), Resolve(key).value, searchQueries, searchResults, recs, now, now)
      ensures r.Success? ==> recommendations[Resolve(key).value].timestamp == now
      ensures r.Failure? ==> recommendations == old(recommendations)
      ensures students == old(students)
    {
      r := Store(key, searchQueries, searchResults, recs, now, now, commitError);
      if r.Success? {
        UpsertRows(old(recommendations), Resolve(key).value, searchQueries, searchResults, recs, now, now);
      }
    }

    /** The transaction both saves share; only the stamp of an inserted row differs. */
    method Store(key: SessionKey, searchQueries: Json, searchResults: Json, recs: Json,
                 now: string, insertStamp: string, commitError: Option<string>)
      returns (r: Result<()>)
      requires Valid()
      modifies this
      ensures Valid()
      ensures r.Success? <==>
        Resolve(key).Success? && commitError.None? &&
        (Resolve(key).value in old(recommendations) || Resolve(key).value in old(students))
      ensures r.Success? ==>
        recommendations == Upsert(old(recommendations), Resolve(key).value, searchQueries, searchResults, recs, now, insertStamp)
      ensures r.Failure? ==> recommendations == old(recommendations)
      ensures students == old(students)
    {
      var resolved := Resolve(key);
      if resolved.Failure? {
        return Failure(resolved.error);
      }
      var id := resolved.value;
      // The session's pending change: update the existing row, or add a new one.
      var staged := Upsert(recommendations, id, searchQueries, searchResults, recs, now, insertStamp);
      if id !in students {
        return Failure(ForeignKeyViolation);
      }
      if commitError.Some? {
        return Failure(commitError.value);
      }
      recommendations := staged;
      r := Success(());
    }

    /** `get_recommendation_session`: the stored row under the parsed id, if any; nothing changes. */
    method GetRecommendationSession(key: SessionKey) returns (r: Result<Option<RecommendationRecord>>)
      ensures r == Lookup(recommendations, key)
    {
      var resolved := Resolve(key);
      if resolved.Failure? {
        return Failure(resolved.error);
      }
      var id := resolved.value;
      if id in recommendations {
        var row := recommendations[id];
        r := Success(Some(RecommendationRecord(UuidText(id), row.searchQueries, row.searchResults,
                                               row.recommendations, row.timestamp)));
      } else {
        r := Success(None);
      }
    }
  }
}
