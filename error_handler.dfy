/** The error responder (backend/src/middleware/errorHandler.js): turns a
    thrown error into the JSON error response, and turns an unmatched route
    into a 404 error. */
module ErrorHandler {
  import opened Domain

  const DuplicateKey: int := 11000

  /** Error names the responder recognises. */
  const CastErrorName: string := "CastError"
  const ValidationErrorName: string := "ValidationError"
  const JwtErrorName: string := "JsonWebTokenError"
  const ExpiredErrorName: string := "TokenExpiredError"

  /** One entry of a Mongoose validation error's `errors` object. */
  datatype SubError = SubError(path: string, message: string)

  /** One entry of the response's `errors` list. */
  datatype FieldError = FieldError(field: string, message: string)

  /** A thrown error, reduced to the properties the responder reads.
      `keyPattern` lists the key fields of a duplicate-key error in order;
      `subErrors` are the values of a Mongoose validation error's `errors`;
      `ownErrors` is an `errors` list another error carries itself, which
      the initial copy of the error keeps. */
  datatype Failure = Failure(
    name: string,
    message: string,
    statusCode: Option<int>,
    code: Option<int>,
    keyPattern: seq<string>,
    subErrors: seq<SubError>,
    ownErrors: seq<FieldError>)

  /** The working copy the responder reassigns. */
  datatype AppErr = AppErr(message: string, statusCode: int, errors: seq<FieldError>)

  datatype Response = Response(status: int, success: bool, message: string, errors: seq<FieldError>)

  /** `err.statusCode || 500`. */
  function StatusOrDefault(statusCode: Option<int>): (s: int)
    ensures statusCode.Some? && statusCode.value != 0 ==> s == statusCode.value
    ensures statusCode.None? || statusCode.value == 0 ==> s == 500
  {
    if statusCode.Some? && statusCode.value != 0 then statusCode.value else 500
  }

  function UpperAscii(c: char): (u: char)
    ensures 'a' <= c <= 'z' ==> u as int == c as int - 32
    ensures !('a' <= c <= 'z') ==> u == c
  {
    if 'a' <= c <= 'z' then (c as int - 32) as char else c
  }

  /** `field.charAt(0).toUpperCase() + field.slice(1)`. */
  function Capitalise(field: string): (r: string)
    ensures |r| == |field|
    ensures field != [] ==> r[0] == UpperAscii(field[0]) && r[1..] == field[1..]
  {
    if field == [] then [] else [UpperAscii(field[0])] + field[1..]
  }

  /** The sub-errors as `{ field, message }` entries, in order. */
  function FieldErrors(subs: seq<SubError>): (r: seq<FieldError>)
    ensures |r| == |subs|
    ensures forall i :: 0 <= i < |r| ==> r[i] == FieldError(subs[i].path, subs[i].message)
  {
    if subs == [] then [] else [FieldError(subs[0].path, subs[0].message)] + FieldErrors(subs[1..])
  }

  /** The rules apply one after another and each replaces the working copy,
      so the last rule that matches decides: an expired token over an
      invalid one, over a validation error, over a duplicate key, over a
      cast error, over the error's own status and message. The response
      never reports success, and its errors are empty except for a
      validation error or an error that carries its own list. */
  method HandleError(err: Failure) returns (res: Response)
    requires err.code == Some(DuplicateKey) ==> |err.keyPattern| >= 1
    ensures !res.success
    ensures err.name == ExpiredErrorName ==> res == Response(401, false, "Token expired", [])
    ensures err.name == JwtErrorName ==> res == Response(401, false, "Invalid token", [])
    ensures err.name == ValidationErrorName ==>
              res == Response(400, false, "Validation failed", FieldErrors(err.subErrors))
    ensures err.name !in {ExpiredErrorName, JwtErrorName, ValidationErrorName} && err.code == Some(DuplicateKey) ==>
              res == Response(409, false, Capitalise(err.keyPattern[0]) + " already exists", [])
    ensures err.name == CastErrorName && err.code != Some(DuplicateKey) ==>
              res == Response(404, false, "Resource not found", [])
    ensures err.name !in {ExpiredErrorName, JwtErrorName, ValidationErrorName, CastErrorName}
            && err.code != Some(DuplicateKey) ==>
              res == Response(StatusOrDefault(err.statusCode), false, err.message, err.ownErrors)
  {
    var error := AppErr(err.message, StatusOrDefault(err.statusCode), err.ownErrors);
    if err.name == CastErrorName {
      error := AppErr("Resource not found", 404, []);
    }
    if err.code == Some(DuplicateKey) {
      var field := err.keyPattern[0];
      error := AppErr(Capitalise(field) + " already exists", 409, []);
    }
    if err.name == ValidationErrorName {
      var errors := FieldErrors(err.subErrors);
      error := AppErr("Validation failed", 400, []);
      error := error.(errors := errors);
    }
    if err.name == JwtErrorName {
      error := AppErr("Invalid token", 401, []);
    }
    if err.name == ExpiredErrorName {
      error := AppErr("Token expired", 401, []);
    }
    res := Response(error.statusCode, false, error.message, error.errors);
  }

  /** `notFound`: the error it passes on for an unmatched URL. */
  function NotFoundError(url: string): (e: AppErr)
    ensures e.statusCode == 404 && e.errors == []
    ensures e.message == "Route " + url + " not found"
  {
    AppErr("Route " + url + " not found", 404, [])
  }

  /** As thrown, the route error carries its status and no code; whatever
      its class's name, unless it is one the responder recognises, the
      response is a 404 with the route message. */
  method NotFoundResponse(url: string, name: string) returns (res: Response)
    requires name !in {ExpiredErrorName, JwtErrorName, ValidationErrorName, CastErrorName}
    ensures res == Response(404, false, "Route " + url + " not found", [])
  {
    var e := NotFoundError(url);
    res := HandleError(Failure(name, e.message, Some(e.statusCode), None, [], [], e.errors));
  }
}
