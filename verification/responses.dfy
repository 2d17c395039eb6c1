/**
 * util/responses.py: the catalogue of return codes with their messages, and the four builders
 * of the `{success, return_code, message, data?/errors?/error_detail?}` envelope. A framework
 * Response is modelled as the payload dict plus the HTTP status.
 */
module Responses {
  import opened Wrappers
  import opened PyValue
  import BaseSerializer

  // ---------------------------------------------------------------------------
  // APIResponse.Codes
  // ---------------------------------------------------------------------------

  // Success codes; each constant's value is its own name.
  const REGISTRATION_SUCCESS := "REGISTRATION_SUCCESS"
  const LOGIN_SUCCESS := "LOGIN_SUCCESS"
  const OTP_VERIFIED := "OTP_VERIFIED"
  const OTP_RESENT := "OTP_RESENT"
  const PASSWORD_RESET_EMAIL_SENT := "PASSWORD_RESET_EMAIL_SENT"
  const PASSWORD_CHANGE_SUCCESS := "PASSWORD_CHANGE_SUCCESS"
  const LOGOUT_SUCCESS := "LOGOUT_SUCCESS"
  const USER_DELETED_SUCCESS := "USER_DELETED_SUCCESS"
  const PROFILE_RETRIEVED := "PROFILE_RETRIEVED"
  const PROFILE_UPDATED := "PROFILE_UPDATED"
  const USERS_LIST_RETRIEVED := "USERS_LIST_RETRIEVED"

  // Error codes.
  const VALIDATION_ERROR := "VALIDATION_ERROR"
  const INVALID_CREDENTIALS := "INVALID_CREDENTIALS"
  const ACCOUNT_NOT_VERIFIED := "ACCOUNT_NOT_VERIFIED"
  const ACCOUNT_INACTIVE := "ACCOUNT_INACTIVE"
  const EMAIL_REQUIRED := "EMAIL_REQUIRED"
  const USER_NOT_FOUND := "USER_NOT_FOUND"
  const EMAIL_NOT_FOUND := "EMAIL_NOT_FOUND"
  const EMAIL_OTP_REQUIRED := "EMAIL_OTP_REQUIRED"
  const OTP_REQUIRED := "OTP_REQUIRED"
  const OTP_INVALID := "OTP_INVALID"
  const OTP_EXPIRED := "OTP_EXPIRED"
  const PASSWORD_REQUIRED := "PASSWORD_REQUIRED"
  const PASSWORDS_DO_NOT_MATCH := "PASSWORDS_DO_NOT_MATCH"
  const TOKEN_INVALID := "TOKEN_INVALID"
  const INVALID_LINK := "INVALID_LINK"
  const LOGIN_CREDENTIAL_INVALID := "LOGIN_CREDENTIAL_INVALID"
  const OTP_VERIFICATION_FAILED := "OTP_VERIFICATION_FAILED"
  const USER_DELETED := "USER_DELETED"
  const EMAIL_ALREADY_EXISTS := "EMAIL_ALREADY_EXISTS"
  const PASSWORD_LENGTH_INVALID := "PASSWORD_LENGTH_INVALID"

  const SuccessCodes: seq<string> :=
    [REGISTRATION_SUCCESS, LOGIN_SUCCESS, OTP_VERIFIED, OTP_RESENT, PASSWORD_RESET_EMAIL_SENT,
     PASSWORD_CHANGE_SUCCESS, LOGOUT_SUCCESS, USER_DELETED_SUCCESS, PROFILE_RETRIEVED,
     PROFILE_UPDATED, USERS_LIST_RETRIEVED]

  const ErrorCodes: seq<string> :=
    [VALIDATION_ERROR, INVALID_CREDENTIALS, ACCOUNT_NOT_VERIFIED, ACCOUNT_INACTIVE, EMAIL_REQUIRED,
     USER_NOT_FOUND, EMAIL_NOT_FOUND, EMAIL_OTP_REQUIRED, OTP_REQUIRED, OTP_INVALID, OTP_EXPIRED,
     PASSWORD_REQUIRED, PASSWORDS_DO_NOT_MATCH, TOKEN_INVALID, INVALID_LINK,
     LOGIN_CREDENTIAL_INVALID, OTP_VERIFICATION_FAILED, USER_DELETED, EMAIL_ALREADY_EXISTS,
     PASSWORD_LENGTH_INVALID]

  /** Codes._success_messages */
  const SuccessMessages: map<string, string> := map[
    REGISTRATION_SUCCESS := "Registration successful. OTP sent.",
    LOGIN_SUCCESS := "Login successful.",
    OTP_VERIFIED := "OTP verified successfully.",
    OTP_RESENT := "OTP resent successfully.",
    PASSWORD_RESET_EMAIL_SENT := "Password reset email sent.",
    PASSWORD_CHANGE_SUCCESS := "Password changed successfully.",
    LOGOUT_SUCCESS := "Logout successful.",
    USER_DELETED_SUCCESS := "User account deleted successfully.",
    PROFILE_RETRIEVED := "Profile retrieved successfully.",
    PROFILE_UPDATED := "Profile updated successfully.",
    USERS_LIST_RETRIEVED := "Users list retrieved successfully."]

  /** Codes._error_messages */
  const ErrorMessages: map<string, string> := map[
    VALIDATION_ERROR := "Validation failed.",
    INVALID_CREDENTIALS := "Invalid email or password.",
    ACCOUNT_NOT_VERIFIED := "Please verify your account first.",
    ACCOUNT_INACTIVE := "Account is inactive.",
    EMAIL_REQUIRED := "Email is required.",
    EMAIL_NOT_FOUND := "Email not found.",
    USER_NOT_FOUND := "User does not exist.",
    EMAIL_OTP_REQUIRED := "Email and OTP are required.",
    OTP_REQUIRED := "OTP is required.",
    OTP_INVALID := "Invalid OTP.",
    OTP_EXPIRED := "OTP has expired.",
    PASSWORD_REQUIRED := "Password is required.",
    PASSWORDS_DO_NOT_MATCH := "Passwords do not match.",
    TOKEN_INVALID := "Token is invalid or expired.",
    INVALID_LINK := "Invalid reset password link.",
    LOGIN_CREDENTIAL_INVALID := "Invalid login credentials.",
    OTP_VERIFICATION_FAILED := "OTP verification failed.",
    USER_DELETED := "User account deleted.",
    EMAIL_ALREADY_EXISTS := "Email already exists.",
    PASSWORD_LENGTH_INVALID :=
      "Password must be 8-16 characters long and contain at least one number and one special character."]

  const HTTP_200_OK := 200
  const HTTP_400_BAD_REQUEST := 400

  /** Every success code has a success message and every error code an error message, and no others. */
  lemma CatalogueComplete()
    ensures SuccessMessages.Keys == set c | c in SuccessCodes
    ensures ErrorMessages.Keys == set c | c in ErrorCodes
  {
  }

  /** No code is both a success code and an error code. */
  lemma CodeSetsDisjoint()
    ensures forall c :: c in SuccessCodes ==> c !in ErrorCodes
  {
  }

  // ---------------------------------------------------------------------------
  // Envelopes
  // ---------------------------------------------------------------------------

  /** A rest_framework Response: the payload dict and the HTTP status. */
  datatype Response = Response(payload: map<string, Value>, status: int)

  /** The three keys every envelope carries, with the success flag and the echoed code. */
  predicate IsEnvelope(r: Response, success: bool, returnCode: string)
  {
    && "success" in r.payload && r.payload["success"] == Bool(success)
    && "return_code" in r.payload && r.payload["return_code"] == Str(returnCode)
    && "message" in r.payload && r.payload["message"].Str?
  }

  /** The message an envelope carries. */
  function Message(r: Response): string
    requires "message" in r.payload && r.payload["message"].Str?
  {
    r.payload["message"].s
  }

  /**
   * get_success_response. `statusCode` None is the omitted argument (200); `data` Null is the
   * omitted argument (None). Falsy data is replaced by {}.
   */
  function GetSuccessResponse(returnCode: string, data: Value, statusCode: Option<int>): (r: Response)
    ensures IsEnvelope(r, true, returnCode)
    ensures r.payload.Keys == {"success", "return_code", "message", "data"}
    ensures returnCode in SuccessMessages ==> Message(r) == SuccessMessages[returnCode]
    ensures returnCode !in SuccessMessages ==> Message(r) == "Success"
    ensures Truthy(data) ==> r.payload["data"] == data
    ensures !Truthy(data) ==> r.payload["data"] == Dict(map[])
    ensures statusCode.None? ==> r.status == HTTP_200_OK
    ensures statusCode.Some? ==> r.status == statusCode.value
  {
    Response(
      map[
        "success" := Bool(true),
        "return_code" := Str(returnCode),
        "message" := Str(Get(SuccessMessages, returnCode, "Success")),
        "data" := Or(data, Dict(map[]))],
      if statusCode.Some? then statusCode.value else HTTP_200_OK)
  }

  /** Feeding a success response's data back in yields the same response: `data or {}` is idempotent. */
  lemma SuccessDataIdempotent(returnCode: string, data: Value, statusCode: Option<int>)
    ensures var r := GetSuccessResponse(returnCode, data, statusCode);
            GetSuccessResponse(returnCode, r.payload["data"], statusCode) == r
  {
    var r := GetSuccessResponse(returnCode, data, statusCode);
    assert Truthy(r.payload["data"]) <==> Truthy(data);
  }

  /** get_error_response: no data and no errors key; `statusCode` None is the omitted argument (400). */
  function GetErrorResponse(returnCode: string, statusCode: Option<int>): (r: Response)
    ensures IsEnvelope(r, false, returnCode)
    ensures r.payload.Keys == {"success", "return_code", "message"}
    ensures "data" !in r.payload && "errors" !in r.payload
    ensures returnCode in ErrorMessages ==> Message(r) == ErrorMessages[returnCode]
    ensures returnCode !in ErrorMessages ==> Message(r) == "Error"
    ensures statusCode.None? ==> r.status == HTTP_400_BAD_REQUEST
    ensures statusCode.Some? ==> r.status == statusCode.value
  {
    Response(
      map[
        "success" := Bool(false),
        "return_code" := Str(returnCode),
        "message" := Str(Get(ErrorMessages, returnCode, "Error"))],
      if statusCode.Some? then statusCode.value else HTTP_400_BAD_REQUEST)
  }

  /** get_serializer_error_response: always 400, the serializer's errors passed through untouched. */
  function GetSerializerErrorResponse(returnCode: string, serializerErrors: Value): (r: Response)
    ensures IsEnvelope(r, false, returnCode)
    ensures r.payload.Keys == {"success", "return_code", "message", "errors"}
    ensures r.payload["errors"] == serializerErrors
    ensures returnCode in ErrorMessages ==> Message(r) == ErrorMessages[returnCode]
    ensures returnCode !in ErrorMessages ==> Message(r) == "Validation error"
    ensures r.status == HTTP_400_BAD_REQUEST
  {
    Response(
      map[
        "success" := Bool(false),
        "return_code" := Str(returnCode),
        "message" := Str(Get(ErrorMessages, returnCode, "Validation error")),
        "errors" := serializerErrors],
      HTTP_400_BAD_REQUEST)
  }

  /**
   * For a catalogued error code all error builders report the same table message; they differ
   * only in the fallback for an unknown code ("Error" against "Validation error").
   */
  lemma ErrorBuildersShareTable(returnCode: string, statusCode: Option<int>, serializerErrors: Value)
    ensures returnCode in ErrorMessages ==>
              Message(GetErrorResponse(returnCode, statusCode))
              == Message(GetSerializerErrorResponse(returnCode, serializerErrors))
              == ErrorMessages[returnCode]
    ensures returnCode !in ErrorMessages ==>
              Message(GetErrorResponse(returnCode, statusCode))
              != Message(GetSerializerErrorResponse(returnCode, serializerErrors))
  {
  }

  /** A Python str-or-None as a Value. */
  function OptStr(s: Option<string>): Value
  {
    if s.Some? then Str(s.value) else Null
  }

  /**
   * What get_validation_error_response reports: get_error_message's triple, or, when that
   * raises, the table message with no raw token and no field.
   */
  function ReportedError(
    returnCode: string, serializerErrors: BaseSerializer.ErrorDict, errorMessagesDict: map<string, string>)
    : (c: BaseSerializer.ErrorChoice)
    ensures serializerErrors == [] ==> c == BaseSerializer.ErrorChoice(None, BaseSerializer.ValidationFailed, None)
    ensures |serializerErrors| > 0 && serializerErrors[0].1 == [] ==>
              c == BaseSerializer.ErrorChoice(None, Get(ErrorMessages, returnCode, "Validation error"), None)
    ensures |serializerErrors| > 0 && serializerErrors[0].1 != [] ==>
              c == BaseSerializer.GetErrorMessage(serializerErrors, errorMessagesDict).value
    ensures c.field.Some? ==> c.field.value in BaseSerializer.Keys(serializerErrors) && c.raw.Some?
  {
    match BaseSerializer.GetErrorMessage(serializerErrors, errorMessagesDict)
    case Success(c) => c
    case Failure(_) => BaseSerializer.ErrorChoice(None, Get(ErrorMessages, returnCode, "Validation error"), None)
  }

  /** The envelope built from a reported error: the field (when truthy) with [raw], and raw (when truthy) as detail. */
  function ValidationEnvelope(returnCode: string, choice: BaseSerializer.ErrorChoice): (r: Response)
    requires choice.field.Some? ==> choice.raw.Some?
    ensures IsEnvelope(r, false, returnCode)
    ensures Message(r) == choice.friendly
    ensures r.status == HTTP_400_BAD_REQUEST
    ensures r.payload.Keys <= {"success", "return_code", "message", "errors", "error_detail"}
    ensures "errors" in r.payload && r.payload["errors"].Dict?
    ensures |r.payload["errors"].entries| <= 1
    ensures forall k :: k in r.payload["errors"].entries ==> choice.field == Some(k)
    ensures choice.field.Some? && choice.field.value != "" ==>
              r.payload["errors"] == Dict(map[choice.field.value := List([Str(choice.raw.value)])])
    ensures choice.field.None? || choice.field.value == "" ==> r.payload["errors"] == Dict(map[])
    ensures "error_detail" in r.payload <==> choice.raw.Some? && choice.raw.value != ""
    ensures "error_detail" in r.payload ==> r.payload["error_detail"] == Str(choice.raw.value)
  {
    var errorsPayload :=
      if choice.field.Some? && choice.field.value != "" then map[choice.field.value := List([OptStr(choice.raw)])]
      else map[];
    var payload := map[
      "success" := Bool(false),
      "return_code" := Str(returnCode),
      "message" := Str(choice.friendly),
      "errors" := Dict(errorsPayload)];
    Response(
      if choice.raw.Some? && choice.raw.value != "" then payload["error_detail" := Str(choice.raw.value)]
      else payload,
      HTTP_400_BAD_REQUEST)
  }

  /**
   * get_validation_error_response. `errorMessagesDict` is `error_messages_dict or {}` (None and
   * {} behave alike). When get_error_message raises, the generic table message is used instead.
   */
  function GetValidationErrorResponse(
    returnCode: string, serializerErrors: BaseSerializer.ErrorDict, errorMessagesDict: map<string, string>)
    : (r: Response)
    ensures IsEnvelope(r, false, returnCode)
    ensures r.status == HTTP_400_BAD_REQUEST
    ensures "errors" in r.payload && r.payload["errors"].Dict?
    ensures |r.payload["errors"].entries| <= 1
    ensures forall k :: k in r.payload["errors"].entries ==> k in BaseSerializer.Keys(serializerErrors)
    ensures r.payload.Keys <= {"success", "return_code", "message", "errors", "error_detail"}
    // an empty errors dict: the fixed message, nothing reported
    ensures serializerErrors == [] ==>
              && Message(r) == BaseSerializer.ValidationFailed
              && r.payload["errors"] == Dict(map[])
              && "error_detail" !in r.payload
    // get_error_message raised: the table message, nothing reported
    ensures |serializerErrors| > 0 && serializerErrors[0].1 == [] ==>
              && Message(r) == Get(ErrorMessages, returnCode, "Validation error")
              && r.payload["errors"] == Dict(map[])
              && "error_detail" !in r.payload
    // otherwise: the chosen field (when truthy) reported with the first entry's first token
    ensures |serializerErrors| > 0 && serializerErrors[0].1 != [] ==>
              var field := BaseSerializer.ChooseErrorField(serializerErrors);
              var raw := serializerErrors[0].1[0];
              && Message(r) == BaseSerializer.GetErrorMessage(serializerErrors, errorMessagesDict).value.friendly
              && (field != "" ==> r.payload["errors"] == Dict(map[field := List([Str(raw)])]))
              && (field == "" ==> r.payload["errors"] == Dict(map[]))
              && ("error_detail" in r.payload <==> raw != "")
              && ("error_detail" in r.payload ==> r.payload["error_detail"] == Str(raw))
  {
    var choice := ReportedError(returnCode, serializerErrors, errorMessagesDict);
    var r := ValidationEnvelope(returnCode, choice);
    assert |serializerErrors| > 0 && serializerErrors[0].1 != [] ==>
             && choice.field == Some(BaseSerializer.ChooseErrorField(serializerErrors))
             && choice.raw == Some(serializerErrors[0].1[0]);
    r
  }

  /** On the fallback path the validation response is the serializer-error response with empty errors. */
  lemma ValidationFallbackIsSerializerResponse(
    returnCode: string, serializerErrors: BaseSerializer.ErrorDict, errorMessagesDict: map<string, string>)
    requires |serializerErrors| > 0 && serializerErrors[0].1 == []
    ensures GetValidationErrorResponse(returnCode, serializerErrors, errorMessagesDict)
            == GetSerializerErrorResponse(returnCode, Dict(map[]))
  {
    var r := GetValidationErrorResponse(returnCode, serializerErrors, errorMessagesDict);
    assert r.payload.Keys == {"success", "return_code", "message", "errors"};
  }

  /** With no errors at all, the message is the catalogue's VALIDATION_ERROR message. */
  lemma EmptyValidationMatchesCatalogue(returnCode: string, errorMessagesDict: map<string, string>)
    ensures Message(GetValidationErrorResponse(returnCode, [], errorMessagesDict))
            == ErrorMessages[VALIDATION_ERROR]
  {
  }
}
