/** The error classes the builders throw (expressError.js is not part of this model;
    only the class and its message are). */
module ExpressError {

  /** `new BadRequestError(message)`: the request data was unusable. */
  datatype BadRequestError = BadRequestError(message: string)
}
