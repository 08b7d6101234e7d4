/** What a request handler hands back to the web framework: a body, or an
    HTTP exception carrying a status code and a detail message. */
module Http {

  datatype HttpError = HttpError(status: int, detail: string)

  datatype Response<+T> = Ok(body: T) | Raise(error: HttpError)
}
