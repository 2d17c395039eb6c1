/**
 * The pure parts of util/base_serializer.py: the argument guards of the two serializer
 * factories, the per-field error-code table, the code-to-message table with caller overrides,
 * and the choice of the single validation error reported to the client.
 */
module BaseSerializer {
  import opened Wrappers
  import opened PyValue

  // ---------------------------------------------------------------------------
  // Serializer factories: only their argument guards and the Meta they configure
  // ---------------------------------------------------------------------------

  /** Which model fields a response serializer shows: an explicit list or all but an excluded list. */
  datatype FieldSelection = Fields(names: seq<string>) | Exclude(names: seq<string>)

  /** The Meta options get_response_serializer sets on the generated class. */
  datatype ResponseMeta = ResponseMeta(model: string, selection: FieldSelection)

  /** The Meta options get_crud_serializer sets, with whether a required primary key is added. */
  datatype CrudMeta = CrudMeta(model: string, fields: seq<string>, update: bool)

  const NoFieldsError := "Please provide either of fields : fields or exclude fields"
  const BothFieldsError := "Please only provide either of fields : fields or exclude fields"
  const NoCrudFieldsError := "Please provide fields to edit."
  const NoModelError := "Please provide model for the serializer"

  /** get_response_serializer: exactly one of `fields` / `excludeFields` must be non-empty. */
  function GetResponseSerializer(model: string, fields: seq<string>, excludeFields: seq<string>)
    : (r: Result<ResponseMeta>)
    ensures r.Success? <==> (|fields| > 0 <==> |excludeFields| == 0)
    ensures |fields| == 0 && |excludeFields| == 0 ==> r == Failure(NoFieldsError)
    ensures |fields| > 0 && |excludeFields| > 0 ==> r == Failure(BothFieldsError)
    ensures r.Success? ==> r.value.model == model
    ensures r.Success? && |fields| > 0 ==> r.value.selection == Fields(fields)
    ensures r.Success? && |fields| == 0 ==> r.value.selection == Exclude(excludeFields)
  {
    if |fields| == 0 && |excludeFields| == 0 then Failure(NoFieldsError)
    else if |fields| > 0 && |excludeFields| > 0 then Failure(BothFieldsError)
    else if |fields| > 0 then Success(ResponseMeta(model, Fields(fields)))
    else Success(ResponseMeta(model, Exclude(excludeFields)))
  }

  /** get_crud_serializer: needs a non-empty field list (checked first) and a model. */
  function GetCrudSerializer(model: Option<string>, fields: seq<string>, update: bool)
    : (r: Result<CrudMeta>)
    ensures r.Success? <==> |fields| > 0 && model.Some?
    ensures |fields| == 0 ==> r == Failure(NoCrudFieldsError)
    ensures |fields| > 0 && model.None? ==> r == Failure(NoModelError)
    ensures r.Success? ==> r.value == CrudMeta(model.value, fields, update)
  {
    if |fields| == 0 then Failure(NoCrudFieldsError)
    else if model.None? then Failure(NoModelError)
    else Success(CrudMeta(model.value, fields, update))
  }

  // ---------------------------------------------------------------------------
  // Error codes attached to each serializer field
  // ---------------------------------------------------------------------------

  /** The nine DRF error kinds every field gets a code for. */
  const ErrorKinds: seq<string> :=
    ["null", "required", "blank", "invalid", "does_not_exist", "incorrect_type",
     "min_value", "max_value", "max_length"]

  /** The code suffix of an error kind: "incorrect_type" shares the "invalid" code. */
  function CodeSuffix(kind: string): string
  {
    if kind == "incorrect_type" then "invalid" else kind
  }

  /** No value occurs twice in `s`. */
  predicate Distinct(s: seq<string>)
  {
    forall i, j :: 0 <= i < j < |s| ==> s[i] != s[j]
  }

  lemma {:induction false} DistinctCardinality(s: seq<string>)
    requires Distinct(s)
    ensures |set x | x in s| == |s|
  {
    if s != [] {
      DistinctCardinality(s[1..]);
      assert (set x | x in s) == (set x | x in s[1..]) + {s[0]};
      assert s[0] !in s[1..];
    }
  }

  lemma ErrorKindsCount()
    ensures |set k | k in ErrorKinds| == 9
  {
    assert Distinct(ErrorKinds) by {
      forall i, j | 0 <= i < j < |ErrorKinds|
        ensures ErrorKinds[i] != ErrorKinds[j]
      {
        // each pair differs in length or in one of the first two characters
        assert |ErrorKinds[i]| != |ErrorKinds[j]|
               || ErrorKinds[i][0] != ErrorKinds[j][0]
               || ErrorKinds[i][1] != ErrorKinds[j][1];
      }
    }
    DistinctCardinality(ErrorKinds);
  }

  /** The code f"{field}_{suffix}". */
  function Code(field: string, suffix: string): string
  {
    field + "_" + suffix
  }

  /** get_error_messages_code(field) for a non-empty field name: error kind -> "<field>_<kind>". */
  function FieldErrorCodes(field: string): (m: map<string, string>)
    ensures m.Keys == set k | k in ErrorKinds
    ensures |m| == 9
    ensures forall k :: k in m && k != "incorrect_type" ==> m[k] == Code(field, k)
    ensures "incorrect_type" in m && m["incorrect_type"] == Code(field, "invalid")
  {
    var m := map k | k in ErrorKinds :: Code(field, CodeSuffix(k));
    CodeMapFacts(field, m);
    m
  }

  lemma CodeMapFacts(field: string, m: map<string, string>)
    requires m == map k | k in ErrorKinds :: Code(field, CodeSuffix(k))
    ensures m.Keys == set k | k in ErrorKinds
    ensures |m| == 9
    ensures forall k :: k in m && k != "incorrect_type" ==> m[k] == Code(field, k)
    ensures "incorrect_type" in m && m["incorrect_type"] == Code(field, "invalid")
  {
    assert m.Keys == set k | k in ErrorKinds;
    CodeMapSize(m);
    assert "incorrect_type" in ErrorKinds;
  }

  /** A map keyed by the error kinds has nine entries. */
  lemma CodeMapSize(m: map<string, string>)
    requires m.Keys == set k | k in ErrorKinds
    ensures |m| == 9
  {
    assert |m| == |m.Keys|;
    ErrorKindsCount();
  }

  /**
   * get_error_messages_code(fieldName, extraKwargsFields). A falsy field name (None or "")
   * is "". With a field name: its code table. Otherwise, with a non-empty list: for each
   * listed field, {"error_messages": <the recursive call on that field alone>}. Otherwise None.
   */
  function GetErrorMessagesCode(fieldName: string, extraKwargsFields: seq<string>): (r: Value)
    decreases |extraKwargsFields|
    ensures |fieldName| > 0 ==> r == StrDict(FieldErrorCodes(fieldName))
    ensures |fieldName| == 0 && |extraKwargsFields| == 0 ==> r == Null
    ensures |fieldName| == 0 && |extraKwargsFields| > 0 ==>
              r.Dict? && r.entries.Keys == set f | f in extraKwargsFields
    ensures |fieldName| == 0 ==>
              forall f :: f in extraKwargsFields && |f| > 0 ==>
                r.entries[f] == Dict(map["error_messages" := StrDict(FieldErrorCodes(f))])
    ensures |fieldName| == 0 ==>
              forall f :: f in extraKwargsFields && |f| == 0 ==>
                r.entries[f] == Dict(map["error_messages" := Null])
  {
    if |fieldName| > 0 then StrDict(FieldErrorCodes(fieldName))
    else if |extraKwargsFields| > 0 then
      Dict(map f | f in extraKwargsFields ::
             Dict(map["error_messages" := GetErrorMessagesCode(f, [])]))
    else Null
  }

  // ---------------------------------------------------------------------------
  // Code -> human message
  // ---------------------------------------------------------------------------

  /** The built-in message for each code of `field`. */
  function BaseMessages(field: string): map<string, string>
  {
    map[
      Code(field, "null") := field + " should not be null.",
      Code(field, "required") := "Key : " + field + " is missing.",
      Code(field, "blank") := "Please enter value for " + field + ".",
      Code(field, "invalid") := "Please enter a valid value for Field : " + field + ".",
      Code(field, "does_not_exist") := "No record found.",
      Code(field, "incorrect_type") := "Please enter a valid value for Field : " + field + ".",
      Code(field, "min_value") := "Please enter a value greater than min value.",
      Code(field, "max_value") := "You have exceeded the maximum value for " + field,
      Code(field, "max_length") := "You have exceeded the maximum length for " + field]
  }

  /**
   * get_full_error_messages: the base table merged with the caller's (`base | overrides`, the
   * caller winning on a clash), looked up at `fieldError`. A missing key is Python's KeyError.
   */
  function GetFullErrorMessages(fieldName: string, fieldError: string, overrides: map<string, string>)
    : (r: Result<string>)
    ensures fieldError in overrides ==> r == Success(overrides[fieldError])
    ensures fieldError !in overrides && fieldError in BaseMessages(fieldName) ==>
              r == Success(BaseMessages(fieldName)[fieldError])
    ensures r.Failure? <==> fieldError !in overrides && fieldError !in BaseMessages(fieldName)
  {
    var merged := BaseMessages(fieldName) + overrides;
    if fieldError in merged then Success(merged[fieldError]) else Failure("KeyError")
  }

  lemma SuffixHasMessage(field: string, kind: string)
    requires kind in ErrorKinds
    ensures Code(field, CodeSuffix(kind)) in BaseMessages(field)
  {
  }

  /** Every code get_error_messages_code attaches to a field has a message for that field. */
  lemma CodesHaveMessages(field: string, kind: string, overrides: map<string, string>)
    requires kind in ErrorKinds
    ensures GetFullErrorMessages(field, FieldErrorCodes(field)[kind], overrides).Success?
  {
    assert FieldErrorCodes(field)[kind] == Code(field, CodeSuffix(kind));
    SuffixHasMessage(field, kind);
  }

  // ---------------------------------------------------------------------------
  // Which validation error is reported
  // ---------------------------------------------------------------------------

  /** A serializer's `errors` dict in insertion order: field name -> list of error tokens. */
  type ErrorDict = seq<(string, seq<string>)>

  function Keys(errors: ErrorDict): set<string>
  {
    set i | 0 <= i < |errors| :: errors[i].0
  }

  lemma SingleEntryKeys(field: string, tokens: seq<string>)
    ensures Keys([(field, tokens)]) == {field}
  {
    var errors := [(field, tokens)];
    assert errors[0].0 in Keys(errors);
  }

  /** Fields reported ahead of insertion order, most important first. */
  const PriorityKeys: seq<string> := ["confirm_password", "confirm_new_password"]

  /** The first priority key present in `errors`. */
  function FirstPriorityKey(priority: seq<string>, errors: ErrorDict): (r: Option<string>)
    ensures r.Some? ==> r.value in priority && r.value in Keys(errors)
    ensures r.None? ==> forall k :: k in priority ==> k !in Keys(errors)
    ensures r.Some? ==> exists j :: 0 <= j < |priority| && priority[j] == r.value
                                    && forall i :: 0 <= i < j ==> priority[i] !in Keys(errors)
  {
    if priority == [] then None
    else if priority[0] in Keys(errors) then Some(priority[0])
    else FirstPriorityKey(priority[1..], errors)
  }

  /** The field get_error_message reports: confirm_password, then confirm_new_password, else the first key. */
  function ChooseErrorField(errors: ErrorDict): (f: string)
    requires |errors| > 0
    ensures f in Keys(errors)
    ensures "confirm_password" in Keys(errors) ==> f == "confirm_password"
    ensures "confirm_password" !in Keys(errors) && "confirm_new_password" in Keys(errors) ==>
              f == "confirm_new_password"
    ensures "confirm_password" !in Keys(errors) && "confirm_new_password" !in Keys(errors) ==>
              f == errors[0].0
  {
    match FirstPriorityKey(PriorityKeys, errors)
    case Some(k) => k
    case None => errors[0].0
  }

  /** get_error_message's triple (raw token, friendly message, field); None is Python's None. */
  datatype ErrorChoice = ErrorChoice(raw: Option<string>, friendly: string, field: Option<string>)

  const ValidationFailed := "Validation failed."

  /**
   * get_error_message. `raw` is always the first token of the FIRST entry in insertion order,
   * even when a priority field was chosen. The failure is the IndexError raised when that
   * first entry's token list is empty.
   */
  function GetErrorMessage(errors: ErrorDict, overrides: map<string, string>): (r: Result<ErrorChoice>)
    ensures errors == [] ==> r == Success(ErrorChoice(None, ValidationFailed, None))
    ensures r.Failure? <==> |errors| > 0 && |errors[0].1| == 0
    ensures r.Success? && |errors| > 0 ==>
              && r.value.field == Some(ChooseErrorField(errors))
              && r.value.raw == Some(errors[0].1[0])
    ensures r.Success? && |errors| > 0 && ChooseErrorField(errors) == "non_field_errors" ==>
              r.value.friendly == Get(overrides, errors[0].1[0], errors[0].1[0])
    ensures r.Success? && |errors| > 0 && ChooseErrorField(errors) != "non_field_errors" ==>
              var full := GetFullErrorMessages(ChooseErrorField(errors), errors[0].1[0], overrides);
              r.value.friendly == (if full.Success? then full.value else errors[0].1[0])
  {
    if errors == [] then Success(ErrorChoice(None, ValidationFailed, None))
    else
      var field := ChooseErrorField(errors);
      var tokens := errors[0].1;
      if tokens == [] then Failure("IndexError")
      else
        var raw := tokens[0];
        if field == "non_field_errors" then
          Success(ErrorChoice(Some(raw), Get(overrides, raw, raw), Some(field)))
        else
          match GetFullErrorMessages(field, raw, overrides)
          case Success(friendly) => Success(ErrorChoice(Some(raw), friendly, Some(field)))
          case Failure(_) => Success(ErrorChoice(Some(raw), raw, Some(field)))
  }

  /**
   * The reported field and its message need not come from the same entry: with an email error
   * inserted before a confirm_password error, confirm_password is reported with the email token.
   */
  lemma PriorityFieldKeepsFirstToken()
    ensures var errors := [("email", ["email_blank"]), ("confirm_password", ["Passwords do not match."])];
            GetErrorMessage(errors, map[])
              == Success(ErrorChoice(Some("email_blank"), "email_blank", Some("confirm_password")))
  {
    var errors := [("email", ["email_blank"]), ("confirm_password", ["Passwords do not match."])];
    assert errors[1].0 in Keys(errors);
    assert "confirm_password" + "_blank" != "email_blank";
  }

  /** A field's own generated code, reported alone, is translated to that field's message. */
  lemma OwnCodeIsTranslated(field: string, kind: string, overrides: map<string, string>)
    requires kind in ErrorKinds
    requires field != "non_field_errors"
    ensures var code := FieldErrorCodes(field)[kind];
            && GetFullErrorMessages(field, code, overrides).Success?
            && GetErrorMessage([(field, [code])], overrides)
              == Success(ErrorChoice(Some(code), GetFullErrorMessages(field, code, overrides).value, Some(field)))
  {
    var code := FieldErrorCodes(field)[kind];
    CodesHaveMessages(field, kind, overrides);
    var errors := [(field, [code])];
    SingleEntryKeys(field, [code]);
    assert ChooseErrorField(errors) == field;
    var full := GetFullErrorMessages(field, code, overrides);
    var r := GetErrorMessage(errors, overrides);
    assert r.Success? && r.value.raw == Some(code) && r.value.field == Some(field);
    assert r.value.friendly == full.value;
  }
}
