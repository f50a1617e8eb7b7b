/** What the controllers take from the surrounding framework: permission
    levels and the ways a request handler can end abnormally. */
module Framework {

  /** Zikula's permission levels, from lowest to highest. */
  datatype AccessLevel = Overview | Read | Comment | Moderate | Edit | Add | Delete | Admin

  /** The exceptions and error responses the handlers raise. */
  datatype Failure =
    | AccessDenied      // AccessDeniedHttpException
    | NotFound          // NotFoundHttpException
    | InvalidArgument   // \InvalidArgumentException
    | Runtime           // \RuntimeException
    | BadData           // BadDataResponse
    | Fatal             // a PHP fatal error

  /** How a handler ends: with a value, or with one of the failures above. */
  datatype Result<T> = Ok(value: T) | Err(failure: Failure)

  /** The HTTP method of the current request. */
  datatype RequestMethod = HttpGet | HttpPost | HttpOther
}
