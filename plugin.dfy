/** `rest_api_fmf`, the callback on the REST responses: reads the `fields`
    parameter, builds the filter and replaces the response data by its
    projection, or leaves the response alone. */
module Plugin {
  import opened Fields
  import opened Tokenizer
  import opened Values
  import opened Parser
  import opened Levels
  import opened Projector

  /** `!$fields` for the parameter as the request gives it: absent, empty,
      or the string `"0"`. */
  predicate Falsy(param: Option<string>) {
    param == None || param == Some("") || param == Some("0")
  }

  /** What the callback hands back: the response untouched, or the
      projected response data. */
  datatype Outcome = Unchanged | Replaced(data: Value)

  /** The callback's decision, as a function of the parameter and the
      response data. */
  function Respond(param: Option<string>, data: Value): Outcome {
    if Falsy(param) then Unchanged
    else
      var fields := Selector(param.value);
      if fields == [] then Unchanged else Replaced(Project(data, fields))
  }

  /** `rest_api_fmf` as the plugin writes it: two early returns, then the
      parser and the projector loop. */
  method Handle(param: Option<string>, data: Value) returns (o: Outcome)
    ensures o == Respond(param, data)
  {
    if param.None? || param.value == "" || param.value == "0" {
      return Unchanged;
    }
    var filter := Parse(param.value);
    if |filter.fields| == 0 {
      return Unchanged;
    }
    var r := Loop(data, filter.fields);
    o := Replaced(r);
  }

  /** The response is left alone exactly when the parameter is falsy or,
      once its spaces are removed, holds no field name at all (such as
      `","` or `"{}"`). */
  lemma RespondUnchanged(param: Option<string>, data: Value)
    ensures Respond(param, data).Unchanged?
        <==> Falsy(param) || Runs(StripSpaces(param.value)) == []
  {
    if !Falsy(param) {
      SelectorEmpty(param.value);
    }
  }

  /** Once a filter has been built, the data is replaced by an array keyed
      by exactly the top-level fields that are set in it, each key once; when
      none of them is set, by the data itself, objects cast to arrays. */
  lemma RespondKeys(param: Option<string>, data: Value)
    requires Respond(param, data).Replaced?
    ensures var fields := Selector(param.value);
      var r := Respond(param, data).data;
      && ((forall i | 0 <= i < |fields| :: !IsSet(Normalize(data), fields[i].name)) ==> r == Normalize(data))
      && ((exists i | 0 <= i < |fields| :: IsSet(Normalize(data), fields[i].name)) ==>
            r.Arr? && DistinctKeys(r.entries)
            && forall x :: x in Keys(r.entries) <==> Requested(Normalize(data), fields, x))
  {
    var fields := Selector(param.value);
    ProjectFailsOpen(data, fields);
    CollectKeys(Normalize(data), fields);
  }
}
