/** The last-resort error handler: every error it receives is answered 500;
    in production the error's own message is hidden. It never passes the
    error on. */
module ErrorMiddleware {
  import opened Http

  /** `NODE_ENV` */
  datatype NodeEnv = Development | Production | Test

  const MaskedMessage: string := "Internal server error"

  /** `errorMiddleware(err, ...)`, given `err.message`. */
  function HandleError(env: NodeEnv, errMessage: string): (r: Response<()>)
    ensures r.Failure? && r.status == InternalServerError
    ensures env == Production ==> r.error == MaskedMessage
    ensures env != Production ==> r.error == errMessage
  {
    Failure(InternalServerError, if env == Production then MaskedMessage else errMessage)
  }

  /** In production the answer does not depend on the error at all. */
  lemma ProductionRevealsNothing(m1: string, m2: string)
    ensures HandleError(Production, m1) == HandleError(Production, m2)
  {
  }
}
