/** The exceptions the two services throw, as seen by their callers. */
module Errors {

  /** NestJS HTTP exceptions raised by the services, plus a database error
      that escapes a service uncaught (it carries the driver's SQLSTATE code). */
  datatype ServiceError =
    | NotFound              // NotFoundException
    | Conflict              // ConflictException
    | InternalServerError   // InternalServerErrorException
    | BadRequest            // BadRequestException
    | Database(code: string)
}
