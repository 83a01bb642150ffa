/** The `HttpException`s the core raises: a status code and a message. */
module HttpErrors {

  datatype HttpError = HttpError(status: int, message: string)

  const SERVICE_UNAVAILABLE: int := 503
  const NOT_FOUND: int := 404

  /** What either external fetch raises when its request fails. */
  const SourceUnavailable: HttpError := HttpError(SERVICE_UNAVAILABLE, "External data source unavailable")

  /** The `NotFoundException` of a lookup or delete by name. */
  const CountryNotFound: HttpError := HttpError(NOT_FOUND, "Country not found")
}
