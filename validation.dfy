/**
 * The express-validator chains that guard POST /tasks and PUT /tasks/:id
 * (src/routes/task.routes.js). Request bodies are modelled as already-typed
 * values; each chain is a list of checks run in order, every failing check
 * adding one `{field, message}` entry.
 */
module Validation {
  import opened Wrappers

  /** The `completed` key of a body: absent, a boolean, or anything else. */
  datatype BoolField = Missing | Given(value: bool) | NotBoolean

  /**
   * A parsed JSON request body. `suppliedId` stands for an `_id` key a client
   * may send; no handler reads it.
   */
  datatype RequestBody = RequestBody(
    title: Option<string>,
    description: Option<string>,
    completed: BoolField,
    suppliedId: Option<string>)

  /** One entry of the `errors` array of a 400 response. */
  datatype FieldError = FieldError(field: string, message: string)

  const MaxTitleLength: nat := 100
  const MaxDescriptionLength: nat := 500

  const TitleRequired := "Title is required"
  const TitleTooLong := "Title must not be more than 100 characters long"
  const DescriptionTooLong := "Description must not be more than 500 characters long"
  const CompletedNotBoolean := "Completed must be a boolean value"

  /** The string a validator sees: a missing value reads as the empty string. */
  function Text(value: Option<string>): string
  {
    match value
    case None => ""
    case Some(s) => s
  }

  /** `.notEmpty().withMessage(message)` */
  function NotEmpty(field: string, text: string, message: string): seq<FieldError>
  {
    if text == "" then [FieldError(field, message)] else []
  }

  /** `.isLength({ max }).withMessage(message)` */
  function MaxLength(field: string, text: string, max: nat, message: string): seq<FieldError>
  {
    if |text| <= max then [] else [FieldError(field, message)]
  }

  /** `.optional()` before a length check: an absent value is not checked. */
  function OptionalMaxLength(field: string, value: Option<string>, max: nat, message: string): seq<FieldError>
  {
    match value
    case None => []
    case Some(s) => MaxLength(field, s, max, message)
  }

  /** `check("completed").optional().isBoolean().withMessage(...)` */
  function OptionalBoolean(field: string, value: BoolField, message: string): seq<FieldError>
  {
    if value.NotBoolean? then [FieldError(field, message)] else []
  }

  /** The position of a field's checks in the chains: title, then description, then completed. */
  function ChainPosition(field: string): nat
  {
    if field == "title" then 0 else if field == "description" then 1 else 2
  }

  /** Errors appear in chain order, at most one per field. */
  predicate InChainOrder(errors: seq<FieldError>)
  {
    forall i, j :: 0 <= i < j < |errors| ==> ChainPosition(errors[i].field) < ChainPosition(errors[j].field)
  }

  /** What POST /tasks accepts, stated field by field. */
  predicate CreateBodyAcceptable(b: RequestBody)
  {
    && b.title.Some?
    && 1 <= |b.title.value| <= MaxTitleLength
    && (b.description.Some? ==> |b.description.value| <= MaxDescriptionLength)
  }

  /** What PUT /tasks/:id accepts: every key optional, bounded when present. */
  predicate UpdateBodyAcceptable(b: RequestBody)
  {
    && (b.title.Some? ==> |b.title.value| <= MaxTitleLength)
    && (b.description.Some? ==> |b.description.value| <= MaxDescriptionLength)
    && !b.completed.NotBoolean?
  }

  /** The validation result of POST /tasks, in chain order. */
  function CreateErrors(b: RequestBody): (errors: seq<FieldError>)
    ensures errors == [] <==> CreateBodyAcceptable(b)
    ensures FieldError("title", TitleRequired) in errors <==> b.title.None? || b.title == Some("")
    ensures FieldError("title", TitleTooLong) in errors
            <==> b.title.Some? && |b.title.value| > MaxTitleLength
    ensures FieldError("description", DescriptionTooLong) in errors
            <==> b.description.Some? && |b.description.value| > MaxDescriptionLength
    ensures forall e :: e in errors ==>
              e == FieldError("title", TitleRequired) || e == FieldError("title", TitleTooLong)
              || e == FieldError("description", DescriptionTooLong)
    ensures InChainOrder(errors)
  {
    NotEmpty("title", Text(b.title), TitleRequired)
    + MaxLength("title", Text(b.title), MaxTitleLength, TitleTooLong)
    + OptionalMaxLength("description", b.description, MaxDescriptionLength, DescriptionTooLong)
  }

  /** The validation result of PUT /tasks/:id, in chain order. */
  function UpdateErrors(b: RequestBody): (errors: seq<FieldError>)
    ensures errors == [] <==> UpdateBodyAcceptable(b)
    ensures FieldError("title", TitleTooLong) in errors
            <==> b.title.Some? && |b.title.value| > MaxTitleLength
    ensures FieldError("description", DescriptionTooLong) in errors
            <==> b.description.Some? && |b.description.value| > MaxDescriptionLength
    ensures FieldError("completed", CompletedNotBoolean) in errors <==> b.completed.NotBoolean?
    ensures forall e :: e in errors ==>
              e == FieldError("title", TitleTooLong) || e == FieldError("description", DescriptionTooLong)
              || e == FieldError("completed", CompletedNotBoolean)
    ensures InChainOrder(errors)
  {
    OptionalMaxLength("title", b.title, MaxTitleLength, TitleTooLong)
    + OptionalMaxLength("description", b.description, MaxDescriptionLength, DescriptionTooLong)
    + OptionalBoolean("completed", b.completed, CompletedNotBoolean)
  }
}
