/**
 * `_prepare_json_schema`: the generated schema of the response model is
 * tightened for strict structured output. The top level lists all of its
 * properties as `required` (JSON Schema Validation 2020-12, section 6.5.3),
 * and every object schema that declares `properties` is closed with
 * `additionalProperties: false` (JSON Schema Core 2020-12, section 10.3.2.3).
 */
module JsonSchema {
  import opened Wrappers
  import opened Dicts
  import opened JsonValues

  /**
   * `set_additional_properties_false`: a dict with a `properties` key gets
   * `additionalProperties = False`, and the walk goes on into every value of
   * every dict; lists and scalars are left alone. The code sets the key first
   * and then walks the values, which also visits the new `False`; walking the
   * old values first and then setting the key gives the same dict.
   */
  function Tighten(j: Json): Json
    decreases j
  {
    match j
    case Obj(fields) =>
      var walked := seq(|fields|, i requires 0 <= i < |fields| => (fields[i].0, Tighten(fields[i].1)));
      if "properties" in Keys(fields) then Obj(Put(walked, "additionalProperties", Bool(false)))
      else Obj(walked)
    case _ => j
  }

  /** The walk over the values of one dict, keeping its keys in place. */
  function TightenFields(fields: seq<(string, Json)>): (r: seq<(string, Json)>)
    ensures |r| == |fields|
    ensures forall i :: 0 <= i < |fields| ==> r[i] == (fields[i].0, Tighten(fields[i].1))
  {
    seq(|fields|, i requires 0 <= i < |fields| => (fields[i].0, Tighten(fields[i].1)))
  }

  /** The dict the walk makes of `fields`. */
  lemma TightenObj(fields: seq<(string, Json)>)
    ensures Tighten(Obj(fields)) ==
      if "properties" in Keys(fields) then Obj(Put(TightenFields(fields), "additionalProperties", Bool(false)))
      else Obj(TightenFields(fields))
    ensures Keys(TightenFields(fields)) == Keys(fields)
  {
  }

  /**
   * Every dict reachable from `j` through dict values that declares
   * `properties` has `additionalProperties` set to `False`.
   */
  predicate Closed(j: Json)
    decreases j
  {
    match j
    case Obj(fields) =>
      ("properties" in Keys(fields) ==> Get(fields, "additionalProperties") == Some(Bool(false))) &&
      forall i :: 0 <= i < |fields| ==> Closed(fields[i].1)
    case _ => true
  }

  /** Looking a key up after the walk finds the walked value. */
  lemma {:induction false} TightenFieldsGet(fields: seq<(string, Json)>, k: string)
    ensures Get(TightenFields(fields), k) ==
      if Get(fields, k).Some? then Some(Tighten(Get(fields, k).value)) else None
    decreases |fields|
  {
    if fields != [] && fields[0].0 != k {
      TightenFieldsGet(fields[1..], k);
      assert TightenFields(fields)[1..] == TightenFields(fields[1..]);
    }
  }

  /** Every value of the dict is closed. */
  predicate ValuesClosed(fields: seq<(string, Json)>) {
    forall i :: 0 <= i < |fields| ==> Closed(fields[i].1)
  }

  /** Setting a key to a closed value keeps a dict's values closed. */
  lemma {:induction false} PutClosed(fields: seq<(string, Json)>, k: string, v: Json)
    requires ValuesClosed(fields)
    requires Closed(v)
    ensures ValuesClosed(Put(fields, k, v))
    decreases |fields|
  {
    var r := Put(fields, k, v);
    if fields != [] && fields[0].0 != k {
      var rest := Put(fields[1..], k, v);
      assert ValuesClosed(fields[1..]) by {
        forall i | 0 <= i < |fields| - 1 ensures Closed(fields[1..][i].1) {
          assert fields[1..][i] == fields[i + 1];
        }
      }
      PutClosed(fields[1..], k, v);
      assert r == [fields[0]] + rest;
      forall i | 0 < i < |r| ensures Closed(r[i].1) {
        assert r[i] == rest[i - 1];
      }
    } else if fields != [] {
      forall i | 0 < i < |r| ensures Closed(r[i].1) {
        assert r[i] == fields[i];
      }
    }
  }

  /** After the rewrite every reachable dict with `properties` is closed. */
  lemma {:induction false} TightenCloses(j: Json)
    ensures Closed(Tighten(j))
    decreases j
  {
    if j.Obj? {
      var fields := j.fields;
      var walked := TightenFields(fields);
      TightenObj(fields);
      forall i | 0 <= i < |fields| ensures Closed(walked[i].1) {
        TightenCloses(fields[i].1);
      }
      assert ValuesClosed(walked);
      if "properties" in Keys(fields) {
        PutClosed(walked, "additionalProperties", Bool(false));
        GetPutSame(walked, "additionalProperties", Bool(false));
        PutKeys(walked, "additionalProperties", Bool(false));
      }
    }
  }

  /** Setting a key to the value it already holds changes nothing. */
  lemma {:induction false} PutSameValue(fields: seq<(string, Json)>, k: string, v: Json)
    requires Get(fields, k) == Some(v)
    ensures Put(fields, k, v) == fields
    decreases |fields|
  {
    if fields[0].0 != k {
      PutSameValue(fields[1..], k, v);
    }
  }

  /** A schema that is already closed is left exactly as it is. */
  lemma {:induction false} TightenClosed(j: Json)
    requires Closed(j)
    ensures Tighten(j) == j
    decreases j
  {
    if j.Obj? {
      var fields := j.fields;
      TightenObj(fields);
      forall i | 0 <= i < |fields| ensures TightenFields(fields)[i] == fields[i] {
        TightenClosed(fields[i].1);
      }
      assert TightenFields(fields) == fields;
      if "properties" in Keys(fields) {
        PutSameValue(fields, "additionalProperties", Bool(false));
      }
    }
  }

  /** Running the rewrite a second time changes nothing. */
  lemma TightenIdempotent(j: Json)
    ensures Tighten(Tighten(j)) == Tighten(j)
  {
    TightenCloses(j);
    TightenClosed(Tighten(j));
  }

  /**
   * The rewrite only ever adds `additionalProperties`, and only to a dict
   * that declares `properties`; lists and scalars, with everything inside
   * them, are returned unchanged.
   */
  lemma TightenScope(j: Json)
    ensures !j.Obj? ==> Tighten(j) == j
    ensures j.Obj? ==> (Tighten(j).Obj? &&
      Keys(Tighten(j).fields) ==
        if "properties" in Keys(j.fields) && "additionalProperties" !in Keys(j.fields)
        then Keys(j.fields) + ["additionalProperties"]
        else Keys(j.fields))
  {
    if j.Obj? {
      TightenObj(j.fields);
      if "properties" in Keys(j.fields) {
        PutKeys(TightenFields(j.fields), "additionalProperties", Bool(false));
      }
    }
  }

  /** The property names of a schema, as the JSON list `list(properties.keys())`. */
  function NameList(properties: seq<(string, Json)>): (r: seq<Json>)
    ensures |r| == |properties|
    ensures forall i :: 0 <= i < |r| ==> r[i] == Str(properties[i].0)
  {
    seq(|properties|, i requires 0 <= i < |properties| => Str(properties[i].0))
  }

  /** The name under which the tightened schema is handed to the model API. */
  const SchemaName := "recommendations_response"

  /**
   * `_prepare_json_schema` applied to the generated schema `raw`: a missing
   * or non-dict `properties` raises, as the subscript and `.keys()` do.
   */
  function PrepareJsonSchema(raw: Json): (r: Result<Json>)
    ensures r.Success? <==> raw.Obj? && Get(raw.fields, "properties").Some? && Get(raw.fields, "properties").value.Obj?
  {
    if !raw.Obj? then Failure("the schema is not a dict")
    else
      match Get(raw.fields, "properties")
      case None => Failure("'properties'")
      case Some(properties) =>
        if !properties.Obj? then Failure("'properties' has no keys()")
        else
          var withRequired := Put(raw.fields, "required", Arr(NameList(properties.fields)));
          Success(Obj([("name", Str(SchemaName)), ("schema", Tighten(Obj(withRequired)))]))
  }

  /**
   * The prepared schema is wrapped under `name` and `schema`; its top level
   * requires exactly the top-level property names, in order, is itself
   * closed, and so is every dict reachable from it.
   */
  lemma PreparedSchema(raw: Json)
    requires PrepareJsonSchema(raw).Success?
    ensures var wrapped := PrepareJsonSchema(raw).value;
      var properties := Get(raw.fields, "properties").value;
      wrapped.Obj? && Keys(wrapped.fields) == ["name", "schema"] &&
      Get(wrapped.fields, "name") == Some(Str(SchemaName)) &&
      Get(wrapped.fields, "schema").Some? &&
      var schema := Get(wrapped.fields, "schema").value;
      schema.Obj? && Closed(schema) &&
      Get(schema.fields, "required") == Some(Arr(NameList(properties.fields))) &&
      Get(schema.fields, "additionalProperties") == Some(Bool(false))
  {
    var properties := Get(raw.fields, "properties").value;
    var required := Arr(NameList(properties.fields));
    var withRequired := Put(raw.fields, "required", required);
    var walked := TightenFields(withRequired);
    TightenObj(withRequired);
    PutKeys(raw.fields, "required", required);
    GetKeys(raw.fields, "properties");
    TightenCloses(Obj(withRequired));
    TightenFieldsGet(withRequired, "required");
    GetPutSame(raw.fields, "required", required);
    GetPutOther(walked, "additionalProperties", Bool(false), "required");
    GetPutSame(walked, "additionalProperties", Bool(false));
  }
}
