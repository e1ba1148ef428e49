/** Outcomes of the request handlers: optional values, results, and the
    ways a request can fail. */
module Results {

  datatype Option<T> = None | Some(value: T)

  /** How a request can fail. `LoginRequired` is the redirect of a
      `login_required` wrapper, `NotFound` an Http404 (from
      `get_object_or_404`, a generic view's `get_object`, or a raised
      `Http404`), `PermissionDenied` the exception raised by the edit view,
      `Invalid` a form that did not validate, `FieldError` a query naming a
      field the model does not have. */
  datatype Error = LoginRequired | NotFound | PermissionDenied | Invalid | FieldError

  datatype Result<T> = Ok(value: T) | Err(error: Error)
}
