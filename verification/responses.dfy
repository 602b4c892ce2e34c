/**
 * Response envelopes and the exceptions the services throw
 * (src/common/dto/response.dto.ts and the NestJS exception classes).
 */
module Responses {
  import opened Wrappers

  /** One entry of `errorFields`. */
  datatype ErrorField = ErrorField(field: string, message: string)

  /** `{ result: 'error', message, errorFields }`. */
  datatype ErrorResponse = ErrorResponse(message: string, errorFields: Option<seq<ErrorField>>)

  /** ResponseFactory.createErrorResponse: `errorFields` defaults to null. */
  function CreateErrorResponse(message: string, errorFields: Option<seq<ErrorField>> := None): ErrorResponse
  {
    ErrorResponse(message, errorFields)
  }

  /** The exceptions thrown by the modelled code, each with the body it carries. */
  datatype Exception =
    | BadRequest(response: ErrorResponse)
    | BadRequestText(text: string)          // BadRequestException built from a plain string
    | NotFound(response: ErrorResponse)
    | InternalServerError(response: ErrorResponse)
    | Unauthorized(text: string)           // UnauthorizedException built from a plain string
    | WsException(response: ErrorResponse)
    | WsText(text: string)                  // WsException built from a plain string
    | TypeError                             // a property read on `undefined`
    | QueryFailed(code: string)             // a database error left uncaught, by SQLSTATE code
}
