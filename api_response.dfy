/** The response envelope every service operation returns (success flag, message, payload, error text). */
module Responses {
  import opened Nullable

  /** The constructor is private in the source: values are made by the four factories below only. */
  datatype ApiResponse<T> = ApiResponse(success: bool, message: string, data: Option<T>, error: Option<string>)

  /** What every factory guarantees: a success never carries an error, a failure never carries data. */
  predicate WellFormed<T>(r: ApiResponse<T>) {
    (r.success ==> r.error.None?) && (!r.success ==> r.data.None?)
  }

  /** `ApiResponse.success(message, data)` */
  function Success<T>(message: string, data: T): (r: ApiResponse<T>)
    ensures WellFormed(r) && r.success
    ensures r.message == message && r.data == Some(data)
  {
    ApiResponse(true, message, Some(data), None)
  }

  /** `ApiResponse.success(message)`, and `success(message, null)` */
  function SuccessMessage<T>(message: string): (r: ApiResponse<T>)
    ensures WellFormed(r) && r.success
    ensures r.message == message && r.data.None?
  {
    ApiResponse(true, message, None, None)
  }

  /** `ApiResponse.error(message)`: the message doubles as the error text. */
  function Failure<T>(message: string): (r: ApiResponse<T>)
    ensures WellFormed(r) && !r.success
    ensures r.message == message && r.error == Some(message)
  {
    ApiResponse(false, message, None, Some(message))
  }

  /** `ApiResponse.error(message, error)`; the services often pass a null error. */
  function FailureWith<T>(message: string, error: Option<string>): (r: ApiResponse<T>)
    ensures WellFormed(r) && !r.success
    ensures r.message == message && r.error == error
  {
    ApiResponse(false, message, None, error)
  }
}
