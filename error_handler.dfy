/** `errorHandler`: turns an error thrown by a route into a status and a fixed JSON body. */
module ErrorHandler {
  import opened Http

  const AuthorNotFound := "author_not_found"
  const PaperNotFound := "paper_not_found"
  const ConstraintViolation := "constraint"

  /** The answer for an error whose `type` property is `errType` (`None` when the error has
      no `type` or it is not a string, so that it equals none of the three names). */
  function HandleError(errType: Option<string>): (r: Response)
    ensures r.status == 404 <==> errType == Some(AuthorNotFound) || errType == Some(PaperNotFound)
    ensures r.status == 400 <==> errType == Some(ConstraintViolation)
    ensures r.status == 500 <==> errType !in {Some(AuthorNotFound), Some(PaperNotFound), Some(ConstraintViolation)}
    ensures r.status == 404 ==> r.message == None
    ensures r.status != 404 ==> r.message.Some?
  {
    if errType == Some(AuthorNotFound) then
      Response(404, "Author not found", None)
    else if errType == Some(PaperNotFound) then
      Response(404, "Paper not found", None)
    else if errType == Some(ConstraintViolation) then
      Response(400, "Constraint Error", Some("Cannot delete author: they are the only author of one or more papers"))
    else
      Response(500, "Internal Server Error", Some("An unexpected error occurred"))
  }

  /** The three named error types get three different answers, and every other error gets
      one and the same generic answer. */
  lemma ResponsesIdentifyKnownErrors(t1: Option<string>, t2: Option<string>)
    ensures var known := {Some(AuthorNotFound), Some(PaperNotFound), Some(ConstraintViolation)};
      && (t1 in known && t2 in known && t1 != t2 ==> HandleError(t1) != HandleError(t2))
      && (t1 !in known && t2 !in known ==> HandleError(t1) == HandleError(t2))
  {
  }
}
