# Amenity training tasks — verified model of the pure logic

This project models, in Dafny, the self-contained logic of the training-task repository:

- **Response envelope codec** (`Task6/DjangoCrud/util/responses.py`): the `APIResponse.Codes`
  catalogue of success and error return codes with their message tables. It also covers the
  four builders of the `{success, return_code, message, data? / errors? / error_detail?}`
  envelope. A framework `Response` is modelled as a payload map plus an HTTP status.
- **Validation-error selection** (`Task6/DjangoCrud/util/base_serializer.py`): the argument
  guards of the two serializer factories, the per-field error-code table, the code-to-message
  table with caller overrides, and the choice of the single error reported to a client.
- **String validators** (`Task4/regx.py`): the phone-number and e-mail `re.fullmatch` decisions.
- **Fibonacci generators** (`Task1/Fibonachi_Class.py`, `Task1/Fibonaci_Method.py`): both
  iterative loops, checked against a recursive `Fib`.

Modules, one per file:

- `Wrappers`: `Option` (Python's `None`) and `Result` (a raised exception).
- `PyValue`: Python values, truthiness, `or` and `dict.get`.
- `FibSpec`: the recursive `Fib`, the reference `Series` and their lemmas.
- `FibonachiClass` and `FibonaciMethod`: the two generators.
- `Regx`: the two validators.
- `BaseSerializer`: the serializer guards and error-message logic.
- `Responses`: the code catalogue and the envelope builders.

Modelling conventions:

- A Python dict of serializer errors is an insertion-ordered `seq<(string, seq<string>)>`.
- `a | b` on dicts is Dafny's right-biased map union `a + b`.
- A raised `ValueError` / `KeyError` / `IndexError` is `Result.Failure`.
- An omitted `status_code` argument is `Option.None`.
- Where the source only tests truthiness, `None` and the empty value are merged. This applies to
  `field_name`, `extra_kwargs_fields` and `error_messages_dict or {}`.
- Each regex is stated twice. A ghost predicate follows the pattern's concatenation, with one
  existential per split point. A compiled predicate scans the string directly. Lemmas prove the
  two agree in both directions.

A point the model makes explicit: `get_error_message` chooses the reported field by priority
(`confirm_password`, then `confirm_new_password`, then the first key). Its `raw` token, however,
always comes from the first entry in insertion order. So a `confirm_password` error inserted
after an `email` error is reported under `confirm_password` with the email's token
(`BaseSerializer.PriorityFieldKeepsFirstToken`).

## Model

| member | source | states |
|---|---|---|
| FibonachiClass.Fibonaci | Task1/Fibonachi_Class.py:3-12 | 0 for every non-positive number, Fib(number) from 1 up; the two-variable loop keeps a, b = Fib(i-2), Fib(i-1) |
| FibonachiClass.FiboSeries | Task1/Fibonachi_Class.py:14-19 | length is max(n, 0); element i is Fib(i); equals the reference series; non-decreasing |
| FibSpec.SeriesAt | Task1/Fibonachi_Class.py:17-18 | the i-th element of the n-element series is Fib(i) |
| FibSpec.SeriesPrefix | Task1/Fibonachi_Class.py:14-19 | fiboseries(m) is a prefix of fiboseries(n) whenever m <= n |
| FibSpec.FibMonotone | Task1/Fibonachi_Class.py:3-12 | Fibonacci numbers never decrease with the index |
| FibSpec.SeriesNonDecreasing | Task1/Fibonachi_Class.py:14-19 | a later element of the series is never smaller than an earlier one |
| FibonaciMethod.Fibonaci | Task1/Fibonaci_Method.py:1-15 | [0] for number <= 0, [0, 1] for 1, otherwise exactly `number` elements; element i is Fib(i); never empty, starts with 0; each element from index 2 is the sum of the two before |
| FibonaciMethod.AppendFibonacci | Task1/Fibonaci_Method.py:9-15 | the loop that starts from [0, 1] and appends b builds exactly the first `number` Fibonacci numbers; the invariant keeps the list equal to the series so far and a, b = Fib(i-2), Fib(i-1) |
| FibSpec.SeriesFacts | Task1/Fibonaci_Method.py:13-15 | every series element is the Fibonacci number of its index, and each from index 2 is the sum of the two before it |
| FibonaciMethod.CompareWithClassSeries | Task1/Fibonaci_Method.py:1-15 | the list-building function equals fibo().fiboseries for number >= 2, and differs at 1 ([0,1] vs [0]) and at <= 0 ([0] vs []) |
| Regx.MobileValidatorSound | Task4/regx.py:13-14 | the hand-coded phone check accepts only strings the pattern `^\+?[0-9]{10,15}$` fully matches |
| Regx.MobileValidatorComplete | Task4/regx.py:13-14 | every full match of the phone pattern is accepted by the hand-coded check |
| Regx.MobileLength | Task4/regx.py:13 | accepted phone strings have length 10 to 16, and length 16 only with a leading '+' |
| Regx.MobileAcceptedShape | Task4/regx.py:13-14 | a full match consists of digits, except possibly a '+' at index 0, with at most 15 digits |
| Regx.MobileRejectsStrayCharacter | Task4/regx.py:13-14 | a letter anywhere, or a '+' at any index other than 0, means no full match |
| Regx.MobileRejectsTooManyDigits | Task4/regx.py:13-14 | a string with more than 15 digits never fully matches |
| Regx.MobileExamples | Task4/regx.py:23-25 | "9016568931" and "+919016568931" match, "Aefbe543" does not |
| Regx.EmailValidatorSound | Task4/regx.py:6-7 | the hand-coded e-mail check (first '@', last '.', character classes on the three parts) accepts only full matches of the e-mail pattern |
| Regx.EmailValidatorComplete | Task4/regx.py:6-7 | every full match of the e-mail pattern is accepted: its '@' is the first one and its '.' the last one |
| Regx.EmailSingleAt | Task4/regx.py:6 | an accepted e-mail contains exactly one '@' |
| Regx.EmailExamples | Task4/regx.py:20-21 | "DeepTapodhan@gmail.com" matches, "DeepTapodhan@gmaiom" does not |
| BaseSerializer.GetResponseSerializer | Task6/DjangoCrud/util/base_serializer.py:8-30 | succeeds iff exactly one of fields / exclude_fields is non-empty, with the two distinct error messages otherwise; configures fields when given, else exclude |
| BaseSerializer.GetCrudSerializer | Task6/DjangoCrud/util/base_serializer.py:40-67 | fails on empty fields (checked first), then on a missing model; otherwise configures model, fields and update flag |
| BaseSerializer.ErrorKindsCount | Task6/DjangoCrud/util/base_serializer.py:78-89 | the nine error kinds are pairwise distinct |
| BaseSerializer.FieldErrorCodes | Task6/DjangoCrud/util/base_serializer.py:78-89 | exactly the 9 error kinds as keys; each maps to "<field>_<kind>", except incorrect_type which maps to "<field>_invalid" |
| BaseSerializer.GetErrorMessagesCode | Task6/DjangoCrud/util/base_serializer.py:77-96 | a non-empty field name gives its code table; otherwise a non-empty list gives one {"error_messages": codes} entry per listed field (None for an empty name); otherwise None |
| BaseSerializer.GetFullErrorMessages | Task6/DjangoCrud/util/base_serializer.py:99-117 | caller entries override the base messages on a clash; a token in neither table is a KeyError |
| BaseSerializer.CodesHaveMessages | Task6/DjangoCrud/util/base_serializer.py:78-117 | every code get_error_messages_code attaches to a field has a message for that field, whatever the overrides |
| BaseSerializer.FirstPriorityKey | Task6/DjangoCrud/util/base_serializer.py:125-131 | the key found is present in the errors and no priority key before it in list order is; none found means no priority key is present |
| BaseSerializer.ChooseErrorField | Task6/DjangoCrud/util/base_serializer.py:125-134 | confirm_password, else confirm_new_password, else the first key in insertion order; always a key of the input |
| BaseSerializer.GetErrorMessage | Task6/DjangoCrud/util/base_serializer.py:120-154 | (None, "Validation failed.", None) for no errors; IndexError exactly when the first entry has no token; otherwise raw is the first entry's first token and the field is the prioritised one; the friendly text is dict.get(raw, raw) for non_field_errors, else the merged-table message falling back to raw |
| BaseSerializer.PriorityFieldKeepsFirstToken | Task6/DjangoCrud/util/base_serializer.py:137-154 | with an email error before a confirm_password error, confirm_password is reported carrying the email token |
| BaseSerializer.OwnCodeIsTranslated | Task6/DjangoCrud/util/base_serializer.py:137-154 | a field reported alone with one of its own generated codes gets that code's message |
| PyValue.Or | Task6/DjangoCrud/util/responses.py:103 | `v or fallback` is v when truthy, else fallback; the result is truthy iff either is |
| Responses.CatalogueComplete | Task6/DjangoCrud/util/responses.py:12-89 | the success table is keyed by exactly the success codes and the error table by exactly the error codes |
| Responses.CodeSetsDisjoint | Task6/DjangoCrud/util/responses.py:12-46 | no code is both a success and an error code |
| Responses.GetSuccessResponse | Task6/DjangoCrud/util/responses.py:94-106 | success true, code echoed, success-table message or "Success"; exactly four keys; truthy data passed through, falsy data replaced by {}; status 200 unless given |
| Responses.SuccessDataIdempotent | Task6/DjangoCrud/util/responses.py:103 | rebuilding a success response from its own data gives the same response |
| Responses.GetErrorResponse | Task6/DjangoCrud/util/responses.py:111-122 | success false, error-table message or "Error", no data and no errors key, status 400 unless given |
| Responses.GetSerializerErrorResponse | Task6/DjangoCrud/util/responses.py:127-139 | always 400, errors echoed unchanged, error-table message or "Validation error" |
| Responses.ErrorBuildersShareTable | Task6/DjangoCrud/util/responses.py:113 | for a catalogued code both error builders give the table message; for an unknown code their defaults differ |
| Responses.ReportedError | Task6/DjangoCrud/util/responses.py:143-151 | get_error_message's triple, or on its exception the table message (default "Validation error") with no raw token and no field |
| Responses.ValidationEnvelope | Task6/DjangoCrud/util/responses.py:153-167 | errors holds only the field, when truthy, mapped to [raw]; error_detail is present exactly when raw is truthy; status 400 |
| Responses.GetValidationErrorResponse | Task6/DjangoCrud/util/responses.py:141-167 | always 400; errors holds at most one key, a key of the input; "Validation failed." with {} and no detail for empty errors; the table message with {} and no detail when get_error_message raises; otherwise the chosen field mapped to [first token] and error_detail iff that token is non-empty |
| Responses.ValidationFallbackIsSerializerResponse | Task6/DjangoCrud/util/responses.py:147-151 | on the exception path the validation response equals the serializer-error response with empty errors |
| Responses.EmptyValidationMatchesCatalogue | Task6/DjangoCrud/util/responses.py:69 | for empty serializer errors the message equals the catalogue's VALIDATION_ERROR message |

## Left out

- `Task6/DjangoCrud/usermangement/views.py`: request handlers over the ORM, authentication,
  mail sending and transactions. These are framework I/O with no self-contained logic.
- `Task6/DjangoCrud/util/sent_otp.py`: a random OTP, a database upsert and an SMTP send. It also
  imports a `create_response` that `responses.py` does not define.
- `models.py`, `serializer.py`, `urls.py`: declarative configuration. `urls.py` names views
  that `views.py` does not define.
- The OTP-expiry and account-verification flows: the source does not implement them. The envelope
  builders use only the fixed 400 and the caller-given or default 200/400 statuses.
- `Task4/Text_Extraction.py`: its behaviour is Python's `re.findall` scanning followed by printing.
  Modelling it would mean specifying the regex engine itself.
- The serializer factories' class construction: the metaclass `Meta` setup,
  `BaseModelSerializer.__init__`, field `required` flags and the `dfilter()` queryset. Only the
  argument guards and the options they set are modelled.
- `print` and `input()`: the validators return booleans instead of printing, and the
  Fibonacci inputs are method parameters.
- Responses.CatalogueComplete: "each code's string value equals its name" holds by construction
  of the constants and is not stated as a formula.
- BaseSerializer.GetErrorMessage: serializer errors whose value is not a list of strings are not
  modelled. Examples are nested dicts from nested serializers, or a bare string, whose `[0]` is a
  character.
- Responses.GetValidationErrorResponse: an explicit `error_messages_dict` of `{}` and `None`
  are one input, since the source replaces both with `{}`.
- PyValue: dict keys are strings only. Python's integer and float payload values are
  represented by `Int` only.
- Responses.GetSuccessResponse: an explicitly passed `status_code=None` is not distinguished
  from an omitted one.
