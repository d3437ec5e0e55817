/**
 * The structured reply of the recommendation model: `QuickView`,
 * `DetailedView`, `Recommendation` and `RecommendationsResponse`. Every
 * field is required and every model forbids extra keys, so a decoded JSON
 * object is accepted exactly when it has the declared keys, no others, and
 * values of the declared types.
 */
module ResponseModel {
  import opened Wrappers
  import opened Dicts
  import opened JsonValues

  datatype QuickView = QuickView(title: string, summary: string, keyPoints: seq<string>, nextStep: string)

  datatype DetailedView = DetailedView(reasoning: string, evidence: seq<(string, string)>, discussionPoints: seq<string>)

  /** `kind` is the field the reply calls `type`. */
  datatype Recommendation = Recommendation(id: int, kind: string, quickView: QuickView, detailedView: DetailedView)

  datatype RecommendationsResponse = RecommendationsResponse(recommendations: seq<Recommendation>)

  const QuickViewFields: seq<string> := ["title", "summary", "keyPoints", "nextStep"]
  const DetailedViewFields: seq<string> := ["reasoning", "evidence", "discussionPoints"]
  const RecommendationFields: seq<string> := ["id", "type", "quickView", "detailedView"]
  const ResponseFields: seq<string> := ["recommendations"]

  /** The object has every declared key (all fields are required) and no other (`extra="forbid"`). */
  predicate HasExactly(fields: seq<(string, Json)>, declared: seq<string>) {
    (forall k :: k in Keys(fields) ==> k in declared) && (forall k :: k in declared ==> k in Keys(fields))
  }

  /** The members of `j`, when it is an object with exactly the declared keys. */
  function Shape(j: Json, declared: seq<string>): (r: Result<seq<(string, Json)>>)
    ensures r.Success? <==> j.Obj? && HasExactly(j.fields, declared)
    ensures r.Success? ==> r.value == j.fields
  {
    if !j.Obj? then Failure("Input should be an object")
    else if exists k :: k in Keys(j.fields) && k !in declared then Failure("Extra inputs are not permitted")
    else if exists k :: k in declared && k !in Keys(j.fields) then Failure("Field required")
    else Success(j.fields)
  }

  /** A `str` field. */
  function StringField(fields: seq<(string, Json)>, name: string): (r: Result<string>)
    ensures r.Success? <==> Get(fields, name).Some? && Get(fields, name).value.Str?
    ensures r.Success? ==> Get(fields, name) == Some(Str(r.value))
  {
    var found: Option<Json> := Get(fields, name);
    match found
    case Some(Str(s)) => Success(s)
    case Some(_) => Failure(name + ": Input should be a valid string")
    case None => Failure(name + ": Field required")
  }

  /** An `int` field. */
  function IntField(fields: seq<(string, Json)>, name: string): (r: Result<int>)
    ensures r.Success? <==> Get(fields, name).Some? && Get(fields, name).value.Num?
    ensures r.Success? ==> Get(fields, name) == Some(Num(r.value))
  {
    var found: Option<Json> := Get(fields, name);
    match found
    case Some(Num(n)) => Success(n)
    case Some(_) => Failure(name + ": Input should be a valid integer")
    case None => Failure(name + ": Field required")
  }

  /** The JSON array of some strings. */
  function StringsJson(items: seq<string>): (r: seq<Json>)
    ensures |r| == |items|
    ensures forall i :: 0 <= i < |items| ==> r[i] == Str(items[i])
  {
    seq(|items|, i requires 0 <= i < |items| => Str(items[i]))
  }

  /** A `List[str]` field: an array whose items are all strings. */
  function StringListField(fields: seq<(string, Json)>, name: string): (r: Result<seq<string>>)
    ensures r.Success? <==> (Get(fields, name).Some? && Get(fields, name).value.Arr? &&
      forall i :: 0 <= i < |Get(fields, name).value.items| ==> Get(fields, name).value.items[i].Str?)
    ensures r.Success? ==> Get(fields, name) == Some(Arr(StringsJson(r.value)))
  {
    var found: Option<Json> := Get(fields, name);
    match found
    case Some(Arr(items)) =>
      if forall i :: 0 <= i < |items| ==> items[i].Str? then
        var strings := seq(|items|, i requires 0 <= i < |items| => items[i].s);
        assert items == StringsJson(strings);
        Success(strings)
      else Failure(name + ": Input should be a valid string")
    case Some(_) => Failure(name + ": Input should be a valid list")
    case None => Failure(name + ": Field required")
  }

  /** The JSON object of a string-to-string dict. */
  function StringDictJson(entries: seq<(string, string)>): (r: seq<(string, Json)>)
    ensures |r| == |entries|
    ensures forall i :: 0 <= i < |entries| ==> r[i] == (entries[i].0, Str(entries[i].1))
  {
    seq(|entries|, i requires 0 <= i < |entries| => (entries[i].0, Str(entries[i].1)))
  }

  /** A `Dict[str, str]` field: an object whose members are all strings. */
  function StringDictField(fields: seq<(string, Json)>, name: string): (r: Result<seq<(string, string)>>)
    ensures r.Success? <==> (Get(fields, name).Some? && Get(fields, name).value.Obj? &&
      forall i :: 0 <= i < |Get(fields, name).value.fields| ==> Get(fields, name).value.fields[i].1.Str?)
    ensures r.Success? ==> Get(fields, name) == Some(Obj(StringDictJson(r.value)))
  {
    var found: Option<Json> := Get(fields, name);
    match found
    case Some(Obj(members)) =>
      if forall i :: 0 <= i < |members| ==> members[i].1.Str? then
        var entries := seq(|members|, i requires 0 <= i < |members| => (members[i].0, members[i].1.s));
        assert members == StringDictJson(entries);
        Success(entries)
      else Failure(name + ": Input should be a valid string")
    case Some(_) => Failure(name + ": Input should be a valid dictionary")
    case None => Failure(name + ": Field required")
  }

  /** Validating a `QuickView`: its four fields are read from an object that has exactly them. */
  function ParseQuickView(j: Json): (r: Result<QuickView>)
    ensures r.Success? ==> j.Obj? && HasExactly(j.fields, QuickViewFields)
    ensures r.Success? ==>
      Get(j.fields, "title") == Some(Str(r.value.title)) &&
      Get(j.fields, "summary") == Some(Str(r.value.summary)) &&
      Get(j.fields, "keyPoints") == Some(Arr(StringsJson(r.value.keyPoints))) &&
      Get(j.fields, "nextStep") == Some(Str(r.value.nextStep))
  {
    var fields :- Shape(j, QuickViewFields);
    var title :- StringField(fields, "title");
    var summary :- StringField(fields, "summary");
    var keyPoints :- StringListField(fields, "keyPoints");
    var nextStep :- StringField(fields, "nextStep");
    Success(QuickView(title, summary, keyPoints, nextStep))
  }

  /** Validating a `DetailedView`. */
  function ParseDetailedView(j: Json): (r: Result<DetailedView>)
    ensures r.Success? ==> j.Obj? && HasExactly(j.fields, DetailedViewFields)
    ensures r.Success? ==>
      Get(j.fields, "reasoning") == Some(Str(r.value.reasoning)) &&
      Get(j.fields, "evidence") == Some(Obj(StringDictJson(r.value.evidence))) &&
      Get(j.fields, "discussionPoints") == Some(Arr(StringsJson(r.value.discussionPoints)))
  {
    var fields :- Shape(j, DetailedViewFields);
    var reasoning :- StringField(fields, "reasoning");
    var evidence :- StringDictField(fields, "evidence");
    var discussionPoints :- StringListField(fields, "discussionPoints");
    Success(DetailedView(reasoning, evidence, discussionPoints))
  }

  /** Validating a `Recommendation`: the nested views are validated in turn. */
  function ParseRecommendation(j: Json): (r: Result<Recommendation>)
    ensures r.Success? ==> j.Obj? && HasExactly(j.fields, RecommendationFields)
    ensures r.Success? ==>
      Get(j.fields, "id") == Some(Num(r.value.id)) &&
      Get(j.fields, "type") == Some(Str(r.value.kind)) &&
      Get(j.fields, "quickView").Some? &&
      ParseQuickView(Get(j.fields, "quickView").value) == Success(r.value.quickView) &&
      Get(j.fields, "detailedView").Some? &&
      ParseDetailedView(Get(j.fields, "detailedView").value) == Success(r.value.detailedView)
  {
    var fields :- Shape(j, RecommendationFields);
    var id :- IntField(fields, "id");
    var kind :- StringField(fields, "type");
    var quick :- (match Get(fields, "quickView")
                  case Some(v) => ParseQuickView(v)
                  case None => Failure("quickView: Field required"));
    var detailed :- (match Get(fields, "detailedView")
                     case Some(v) => ParseDetailedView(v)
                     case None => Failure("detailedView: Field required"));
    Success(Recommendation(id, kind, quick, detailed))
  }

  /** Validating every item of a `List[Recommendation]`, in order. */
  function ParseRecommendationList(items: seq<Json>): (r: Result<seq<Recommendation>>)
    ensures r.Success? <==> forall i :: 0 <= i < |items| ==> ParseRecommendation(items[i]).Success?
    ensures r.Success? ==> |r.value| == |items|
    ensures r.Success? ==> forall i :: 0 <= i < |items| ==> ParseRecommendation(items[i]) == Success(r.value[i])
    decreases |items|
  {
    if items == [] then Success([])
    else
      var head :- ParseRecommendation(items[0]);
      var tail :- ParseRecommendationList(items[1..]);
      Success([head] + tail)
  }

  /** `RecommendationsResponse.parse_raw` after the reply text is decoded. */
  function ParseResponse(j: Json): (r: Result<RecommendationsResponse>)
    ensures r.Success? ==> j.Obj? && HasExactly(j.fields, ResponseFields)
    ensures r.Success? ==> (
      exists items :: Get(j.fields, "recommendations") == Some(Arr(items)) &&
        ParseRecommendationList(items) == Success(r.value.recommendations))
  {
    var fields :- Shape(j, ResponseFields);
    var found: Option<Json> := Get(fields, "recommendations");
    match found
    case Some(Arr(items)) =>
      var recs :- ParseRecommendationList(items);
      Success(RecommendationsResponse(recs))
    case Some(_) => Failure("recommendations: Input should be a valid list")
    case None => Failure("recommendations: Field required")
  }

  // ---------------------------------------------------------------------
  // Serialisation, the partner of validation
  // ---------------------------------------------------------------------

  function QuickViewJson(q: QuickView): Json {
    Obj([("title", Str(q.title)), ("summary", Str(q.summary)),
         ("keyPoints", Arr(StringsJson(q.keyPoints))), ("nextStep", Str(q.nextStep))])
  }

  function DetailedViewJson(d: DetailedView): Json {
    Obj([("reasoning", Str(d.reasoning)), ("evidence", Obj(StringDictJson(d.evidence))),
         ("discussionPoints", Arr(StringsJson(d.discussionPoints)))])
  }

  function RecommendationJson(rec: Recommendation): Json {
    Obj([("id", Num(rec.id)), ("type", Str(rec.kind)),
         ("quickView", QuickViewJson(rec.quickView)), ("detailedView", DetailedViewJson(rec.detailedView))])
  }

  function RecommendationListJson(recs: seq<Recommendation>): (r: seq<Json>)
    ensures |r| == |recs|
    ensures forall i :: 0 <= i < |recs| ==> r[i] == RecommendationJson(recs[i])
  {
    seq(|recs|, i requires 0 <= i < |recs| => RecommendationJson(recs[i]))
  }

  function ResponseJson(resp: RecommendationsResponse): Json {
    Obj([("recommendations", Arr(RecommendationListJson(resp.recommendations)))])
  }

  lemma StringListRoundTrip(fields: seq<(string, Json)>, name: string, items: seq<string>)
    requires Get(fields, name) == Some(Arr(StringsJson(items)))
    ensures StringListField(fields, name) == Success(items)
  {
    var js := StringsJson(items);
    assert seq(|js|, i requires 0 <= i < |js| => js[i].s) == items;
  }

  lemma StringDictRoundTrip(fields: seq<(string, Json)>, name: string, entries: seq<(string, string)>)
    requires Get(fields, name) == Some(Obj(StringDictJson(entries)))
    ensures StringDictField(fields, name) == Success(entries)
  {
    var ms := StringDictJson(entries);
    assert seq(|ms|, i requires 0 <= i < |ms| => (ms[i].0, ms[i].1.s)) == entries;
  }

  /** A serialised `QuickView` validates back to itself. */
  lemma QuickViewRoundTrip(q: QuickView)
    ensures ParseQuickView(QuickViewJson(q)) == Success(q)
  {
    var fields := QuickViewJson(q).fields;
    assert Keys(fields) == QuickViewFields;
    GetMember(fields, 0);
    GetMember(fields, 1);
    GetMember(fields, 2);
    GetMember(fields, 3);
    StringListRoundTrip(fields, "keyPoints", q.keyPoints);
  }

  /** A serialised `DetailedView` validates back to itself. */
  lemma DetailedViewRoundTrip(d: DetailedView)
    ensures ParseDetailedView(DetailedViewJson(d)) == Success(d)
  {
    var fields := DetailedViewJson(d).fields;
    assert Keys(fields) == DetailedViewFields;
    GetMember(fields, 0);
    GetMember(fields, 1);
    GetMember(fields, 2);
    StringDictRoundTrip(fields, "evidence", d.evidence);
    StringListRoundTrip(fields, "discussionPoints", d.discussionPoints);
  }

  /** A serialised `Recommendation` validates back to itself. */
  lemma RecommendationRoundTrip(rec: Recommendation)
    ensures ParseRecommendation(RecommendationJson(rec)) == Success(rec)
  {
    var fields := RecommendationJson(rec).fields;
    assert Keys(fields) == RecommendationFields;
    GetMember(fields, 0);
    GetMember(fields, 1);
    GetMember(fields, 2);
    GetMember(fields, 3);
    QuickViewRoundTrip(rec.quickView);
    DetailedViewRoundTrip(rec.detailedView);
  }

  lemma RecommendationListRoundTrip(recs: seq<Recommendation>)
    ensures ParseRecommendationList(RecommendationListJson(recs)) == Success(recs)
  {
    var items := RecommendationListJson(recs);
    forall i | 0 <= i < |recs| ensures ParseRecommendation(items[i]) == Success(recs[i]) {
      RecommendationRoundTrip(recs[i]);
    }
    var r := ParseRecommendationList(items);
    assert r.Success?;
    assert r.value == recs;
  }

  /** A serialised response, with any number of recommendations, validates back to itself. */
  lemma ResponseRoundTrip(resp: RecommendationsResponse)
    ensures ParseResponse(ResponseJson(resp)) == Success(resp)
  {
    var items := RecommendationListJson(resp.recommendations);
    var fields := [("recommendations", Arr(items))];
    assert Keys(fields) == ResponseFields;
    assert Shape(Obj(fields), ResponseFields) == Success(fields);
    assert Get(fields, "recommendations") == Some(Arr(items));
    RecommendationListRoundTrip(resp.recommendations);
  }

  /** A reply with a key the model does not declare is rejected, however well-formed the rest is. */
  lemma ExtraKeyRejected(resp: RecommendationsResponse, key: string, value: Json)
    requires key != "recommendations"
    ensures ParseResponse(Obj(ResponseJson(resp).fields + [(key, value)])).Failure?
  {
    var fields := ResponseJson(resp).fields + [(key, value)];
    assert Keys(fields)[1] == key;
    assert key !in ResponseFields;
    assert !HasExactly(fields, ResponseFields);
  }

  // ---------------------------------------------------------------------
  // Acceptance: which decoded objects validate, in any key order
  // ---------------------------------------------------------------------

  /** The member is present and a JSON string. */
  predicate IsStr(v: Option<Json>) {
    v.Some? && v.value.Str?
  }

  /** The member is present and a JSON integer. */
  predicate IsNum(v: Option<Json>) {
    v.Some? && v.value.Num?
  }

  /** The member is present and an array of strings. */
  predicate IsStrList(v: Option<Json>) {
    v.Some? && v.value.Arr? && forall i :: 0 <= i < |v.value.items| ==> v.value.items[i].Str?
  }

  /** The member is present and an object whose members are strings. */
  predicate IsStrDict(v: Option<Json>) {
    v.Some? && v.value.Obj? && forall i :: 0 <= i < |v.value.fields| ==> v.value.fields[i].1.Str?
  }

  /** An object with exactly the `QuickView` keys, each holding a value of its declared type. */
  predicate QuickViewValid(j: Json) {
    j.Obj? && HasExactly(j.fields, QuickViewFields) &&
    IsStr(Get(j.fields, "title")) && IsStr(Get(j.fields, "summary")) &&
    IsStrList(Get(j.fields, "keyPoints")) && IsStr(Get(j.fields, "nextStep"))
  }

  /** An object with exactly the `DetailedView` keys, each holding a value of its declared type. */
  predicate DetailedViewValid(j: Json) {
    j.Obj? && HasExactly(j.fields, DetailedViewFields) &&
    IsStr(Get(j.fields, "reasoning")) && IsStrDict(Get(j.fields, "evidence")) &&
    IsStrList(Get(j.fields, "discussionPoints"))
  }

  /** An object with exactly the `Recommendation` keys, its two views valid in turn. */
  predicate RecommendationValid(j: Json) {
    j.Obj? && HasExactly(j.fields, RecommendationFields) &&
    IsNum(Get(j.fields, "id")) && IsStr(Get(j.fields, "type")) &&
    Get(j.fields, "quickView").Some? && QuickViewValid(Get(j.fields, "quickView").value) &&
    Get(j.fields, "detailedView").Some? && DetailedViewValid(Get(j.fields, "detailedView").value)
  }

  /** An object whose only key `recommendations` holds a list of valid recommendations. */
  predicate ResponseValid(j: Json) {
    j.Obj? && HasExactly(j.fields, ResponseFields) &&
    Get(j.fields, "recommendations").Some? && Get(j.fields, "recommendations").value.Arr? &&
    forall i :: 0 <= i < |Get(j.fields, "recommendations").value.items| ==>
      RecommendationValid(Get(j.fields, "recommendations").value.items[i])
  }

  /** A `QuickView` validates exactly when its object is well-shaped, whatever the key order. */
  lemma QuickViewAccepted(j: Json)
    ensures ParseQuickView(j).Success? <==> QuickViewValid(j)
  {
    if QuickViewValid(j) {
      assert Shape(j, QuickViewFields) == Success(j.fields);
    }
  }

  /** A `DetailedView` validates exactly when its object is well-shaped, whatever the key order. */
  lemma DetailedViewAccepted(j: Json)
    ensures ParseDetailedView(j).Success? <==> DetailedViewValid(j)
  {
    if DetailedViewValid(j) {
      assert Shape(j, DetailedViewFields) == Success(j.fields);
    }
  }

  /** A `Recommendation` validates exactly when its object and both views are well-shaped. */
  lemma RecommendationAccepted(j: Json)
    ensures ParseRecommendation(j).Success? <==> RecommendationValid(j)
  {
    if j.Obj? {
      var quick := Get(j.fields, "quickView");
      var detailed := Get(j.fields, "detailedView");
      if quick.Some? {
        QuickViewAccepted(quick.value);
      }
      if detailed.Some? {
        DetailedViewAccepted(detailed.value);
      }
    }
  }

  /** A response validates exactly when its object is well-shaped and every item is a valid recommendation. */
  lemma ResponseAccepted(j: Json)
    ensures ParseResponse(j).Success? <==> ResponseValid(j)
  {
    if j.Obj? {
      var found := Get(j.fields, "recommendations");
      if found.Some? && found.value.Arr? {
        var items := found.value.items;
        forall i | 0 <= i < |items| ensures ParseRecommendation(items[i]).Success? <==> RecommendationValid(items[i]) {
          RecommendationAccepted(items[i]);
        }
        if HasExactly(j.fields, ResponseFields) {
          assert Shape(j, ResponseFields) == Success(j.fields);
        }
      }
    }
  }

  /** A `QuickView` sent with its keys in reverse order validates to the same value. */
  lemma QuickViewAnyOrder(q: QuickView)
    ensures ParseQuickView(Obj([("nextStep", Str(q.nextStep)), ("keyPoints", Arr(StringsJson(q.keyPoints))),
                                ("summary", Str(q.summary)), ("title", Str(q.title))])) == Success(q)
  {
    var fields := [("nextStep", Str(q.nextStep)), ("keyPoints", Arr(StringsJson(q.keyPoints))),
                   ("summary", Str(q.summary)), ("title", Str(q.title))];
    assert Keys(fields) == ["nextStep", "keyPoints", "summary", "title"];
    GetMember(fields, 0);
    GetMember(fields, 1);
    GetMember(fields, 2);
    GetMember(fields, 3);
    StringListRoundTrip(fields, "keyPoints", q.keyPoints);
  }
}
