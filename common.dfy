/** Outcome types shared by the services, and the error texts they surface. */
module Common {

  datatype Option<+T> = None | Some(value: T)

  /** A service call either yields a value or fails with the message of the error it throws. */
  datatype Result<+T> = Success(value: T) | Failure(error: string)

  /** The one error every backend service rethrows, whatever went wrong underneath. */
  const DatabaseError: string := "Database error"

  /** The CSV download's answer when the selection is empty. */
  const NoDataError: string := "No data available"

  /** The slug service's answer when a query against the table fails. */
  const SlugGenerationError: string := "Database error during slug generation"
}
