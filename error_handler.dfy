/**
 * The central error middleware: a validation error becomes a 400 with one entry per failed
 * field; an `HttpError` keeps its status; any other error is classified by the words in its
 * message. Unmatched routes get a 404.
 */
module ErrorHandling {
  import opened Wrappers
  import opened Text
  import opened Http
  import Emails
  import Passwords
  import Users
  import UserRepository

  const ValidationMessage := "Validation failed"

  /** One failed rule of a request validation: the path of the field (its keys and indexes, as text) and the message. */
  datatype ValidationItem = ValidationItem(path: seq<string>, message: string)

  /** What reaches the middleware. */
  datatype CaughtError =
    | ValidationError(items: seq<ValidationItem>)
    | HttpError(statusCode: int, message: string)
    | PlainError(message: string)

  /** The status for an error message: the first of the keyword tests that matches, else 500. */
  function Classify(message: string): int {
    if Contains(message, "already exists") then Conflict
    else if Contains(message, "Invalid") || Contains(message, "cannot be empty") ||
            Contains(message, "must be") || Contains(message, "must contain") then BadRequest
    else if Contains(message, "not found") then NotFound
    else if Contains(message, "Unauthorized") then Unauthorized
    else if Contains(message, "Forbidden") then Forbidden
    else InternalServerError
  }

  /** `detail.path.join('.')`, for every item in order. */
  function Details(items: seq<ValidationItem>): (details: seq<FieldError>)
    ensures |details| == |items|
    ensures forall k | 0 <= k < |items| ::
      details[k] == FieldError(Join(items[k].path, "."), items[k].message)
  {
    if items == [] then []
    else [FieldError(Join(items[0].path, "."), items[0].message)] + Details(items[1..])
  }

  /** `errorHandler(error, req, res)`: the response for `error` on a request to `path`, sent at `timestamp`. */
  function HandleError(error: CaughtError, path: string, timestamp: string): ErrorResponse {
    match error
    case ValidationError(items) => Reject(BadRequest, ValidationMessage, Some(Details(items)), timestamp, path)
    case HttpError(status, message) => Reject(status, message, None, timestamp, path)
    case PlainError(message) => Reject(Classify(message), message, None, timestamp, path)
  }

  /** `notFoundHandler(req, res)`. */
  function NotFoundResponse(verb: string, path: string, timestamp: string): ErrorResponse {
    Reject(NotFound, "Route " + verb + " " + path + " not found", None, timestamp, path)
  }

  // ---------------------------------------------------------------- properties

  /** Every response says `success: false`, repeats its status in the body, and names the request path. */
  lemma ResponseShape(error: CaughtError, path: string, timestamp: string)
    ensures var r := HandleError(error, path, timestamp);
      !r.success && r.error.statusCode == r.status && r.error.path == path && r.error.timestamp == timestamp
    ensures var r := HandleError(error, path, timestamp);
      r.error.details.Some? <==> error.ValidationError?
  {
  }

  /** An `HttpError`'s status and message are sent as they are; any other error keeps its own message. */
  lemma MessagesKept(error: CaughtError, path: string, timestamp: string)
    ensures error.HttpError? ==>
      HandleError(error, path, timestamp).status == error.statusCode &&
      HandleError(error, path, timestamp).error.message == error.message
    ensures error.PlainError? ==>
      HandleError(error, path, timestamp).status == Classify(error.message) &&
      HandleError(error, path, timestamp).error.message == error.message
  {
  }

  /** A validation error is a 400 with one entry per failed rule, each naming its field by the dot-joined path. */
  lemma ValidationResponse(items: seq<ValidationItem>, path: string, timestamp: string)
    ensures var r := HandleError(ValidationError(items), path, timestamp);
      r.status == BadRequest && r.error.message == ValidationMessage &&
      r.error.details.Some? && |r.error.details.value| == |items| &&
      forall k | 0 <= k < |items| :: r.error.details.value[k].field == Join(items[k].path, ".")
  {
  }

  /** The keyword tests in order: a status is chosen exactly when every earlier test failed and its own matched. */
  lemma ClassifyFirstMatch(message: string)
    ensures Classify(message) == Conflict <==> Contains(message, "already exists")
    ensures Classify(message) == BadRequest <==>
      !Contains(message, "already exists") &&
      (Contains(message, "Invalid") || Contains(message, "cannot be empty") ||
       Contains(message, "must be") || Contains(message, "must contain"))
    ensures Classify(message) == NotFound <==>
      !Contains(message, "already exists") && !Contains(message, "Invalid") &&
      !Contains(message, "cannot be empty") && !Contains(message, "must be") &&
      !Contains(message, "must contain") && Contains(message, "not found")
    ensures Classify(message) == Unauthorized <==>
      !Contains(message, "already exists") && !Contains(message, "Invalid") &&
      !Contains(message, "cannot be empty") && !Contains(message, "must be") &&
      !Contains(message, "must contain") && !Contains(message, "not found") &&
      Contains(message, "Unauthorized")
    ensures Classify(message) == Forbidden <==>
      !Contains(message, "already exists") && !Contains(message, "Invalid") &&
      !Contains(message, "cannot be empty") && !Contains(message, "must be") &&
      !Contains(message, "must contain") && !Contains(message, "not found") &&
      !Contains(message, "Unauthorized") && Contains(message, "Forbidden")
    ensures Classify(message) == InternalServerError <==>
      !Contains(message, "already exists") && !Contains(message, "Invalid") &&
      !Contains(message, "cannot be empty") && !Contains(message, "must be") &&
      !Contains(message, "must contain") && !Contains(message, "not found") &&
      !Contains(message, "Unauthorized") && !Contains(message, "Forbidden")
  {
  }

  /** Every character of an occurrence of `sub` is a character of `s`. */
  lemma OccurrenceChars(s: string, sub: string)
    ensures forall i | OccursAt(s, sub, i) :: forall c | c in sub :: c in s
  {
    forall i | OccursAt(s, sub, i) ensures forall c | c in sub :: c in s {
      forall c | c in sub ensures c in s {
        var k :| 0 <= k < |sub| && sub[k] == c;
        assert s[i..i + |sub|][k] == s[i + k];
      }
    }
  }

  /** A text without some character of `sub` does not contain `sub`. */
  lemma MissingChar(s: string, sub: string, c: char)
    requires c in sub && c !in s
    ensures !Contains(s, sub)
  {
    OccurrenceChars(s, sub);
  }

  /** A message made of a 400 keyword between two texts without `x` is a 400 (no `x`, so no "already exists"). */
  lemma BadRequestParts(message: string, pre: string, keyword: string, post: string)
    requires keyword in ["Invalid", "cannot be empty", "must be", "must contain"]
    requires 'x' !in pre && 'x' !in post
    requires message == pre + keyword + post
    ensures Classify(message) == BadRequest
  {
    assert message[|pre|..|pre| + |keyword|] == keyword;
    assert OccursAt(message, keyword, |pre|);
    assert 'x' !in keyword;
    MissingChar(message, "already exists", 'x');
  }

  /** The refusals of the address, the password and the user id. */
  const ValidationMessages: seq<string> := [
    Emails.EmptyMessage, Emails.FormatMessage,
    Passwords.EmptyMessage, Passwords.LengthMessage, Passwords.UpperMessage,
    Passwords.LowerMessage, Passwords.DigitMessage,
    Users.IdMessage]

  /** Every validation message of the address, the password and the user id is a 400. */
  lemma ValidationMessagesAreBadRequests(k: nat)
    requires k < |ValidationMessages|
    ensures Classify(ValidationMessages[k]) == BadRequest
  {
    var message := ValidationMessages[k];
    if k == 0 {
      EmptyMessageIsBadRequest(message, "Email ");
    } else if k == 1 {
      FormatMessageIsBadRequest(message);
    } else if k == 7 {
      EmptyMessageIsBadRequest(message, "User ID ");
    } else {
      PasswordMessagesAreBadRequests(k);
    }
  }

  /** The password's refusals, the entries 2 to 6. */
  lemma PasswordMessagesAreBadRequests(k: nat)
    requires 2 <= k <= 6
    ensures Classify(ValidationMessages[k]) == BadRequest
  {
    var message := ValidationMessages[k];
    if k == 2 {
      EmptyMessageIsBadRequest(message, "Password ");
    } else if k == 3 {
      LengthMessageIsBadRequest(message);
    } else if k == 4 {
      ClassMessageIsBadRequest(message, "uppercase letter");
    } else if k == 5 {
      ClassMessageIsBadRequest(message, "lowercase letter");
    } else {
      ClassMessageIsBadRequest(message, "number");
    }
  }

  /** The words of the opening of the character-class refusals. */
  lemma ClassPrefixWords()
    ensures Passwords.ClassPrefix == "Password " + "must contain" + " at least one "
  {
  }

  /** An "… cannot be empty" refusal is a 400. */
  lemma EmptyMessageIsBadRequest(message: string, subject: string)
    requires subject in ["Email ", "Password ", "User ID "]
    requires message == subject + "cannot be empty"
    ensures Classify(message) == BadRequest
  {
    assert message == subject + "cannot be empty" + "";
    BadRequestParts(message, subject, "cannot be empty", "");
  }

  /** The address-format refusal is a 400. */
  lemma FormatMessageIsBadRequest(message: string)
    requires message == Emails.FormatMessage
    ensures Classify(message) == BadRequest
  {
    assert message == "" + "Invalid" + " email format";
    BadRequestParts(message, "", "Invalid", " email format");
  }

  /** The length refusal is a 400. */
  lemma LengthMessageIsBadRequest(message: string)
    requires message == Passwords.LengthMessage
    ensures Classify(message) == BadRequest
  {
    assert Passwords.LengthPrefix == "Password " + "must be" + " at least ";
    assert NatToString(Passwords.MinLength) == "8";
    var post := " at least " + "8" + " characters long";
    assert message == "Password " + "must be" + post;
    BadRequestParts(message, "Password ", "must be", post);
  }

  /** A character-class refusal (`tail` names the class) is a 400. */
  lemma ClassMessageIsBadRequest(message: string, tail: string)
    requires message == Passwords.ClassPrefix + tail
    requires tail in ["uppercase letter", "lowercase letter", "number"]
    ensures Classify(message) == BadRequest
  {
    ClassPrefixWords();
    var post := " at least one " + tail;
    assert message == "Password " + "must contain" + post;
    BadRequestParts(message, "Password ", "must contain", post);
  }

  /** A taken address is a 409. */
  lemma DuplicateIsConflict(message: string)
    requires message == UserRepository.DuplicateMessage
    ensures Classify(message) == Conflict
  {
    assert message[6..] == "already exists";
    assert OccursAt(message, "already exists", 6);
  }

  /** An unmatched route is a 404 naming the HTTP method and the path. */
  lemma NotFoundShape(verb: string, path: string, timestamp: string)
    ensures var r := NotFoundResponse(verb, path, timestamp);
      r.status == NotFound && !r.success && r.error.statusCode == NotFound &&
      r.error.message == "Route " + verb + " " + path + " not found" && r.error.path == path &&
      r.error.details.None?
  {
  }
}
