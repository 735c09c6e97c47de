/** Option and Result values used in place of Python's None and raised exceptions. */
module Wrappers {

  datatype Option<+T> = None | Some(value: T) {
    function GetOr(default: T): T
    {
      if Some? then value else default
    }
  }

  datatype Result<+T, +E> = Ok(value: T) | Err(error: E)
}

/** The exception classes the core raises, and the HTTP status each one carries. */
module Errors {

  datatype Error =
    | DatabaseError            // app/exceptions/base.py, exceptions.py: 500
    | ModelNotFoundError       // app/exceptions/base.py: 404
    | ValidationError          // 400
    | PermissionError          // 403
    | UserNotFoundError        // app/exceptions/users.py: 404
    | HistoryNotFoundError     // app/exceptions/histories.py: 404
    | OwnershipHistoryError    // 403
    | CommentNotFoundError     // app/exceptions/comment.py: 404
    | OwnershipCommentError    // 403
    | LikeNotFoundError        // app/exceptions/like.py: 404
    | OwnershipLikeError       // 403
    | Http(code: int)          // a bare fastapi HTTPException(status_code = code)
    | TypeError                // an uncaught Python TypeError (the server answers 500)
    | KeyError                 // an uncaught Python KeyError (the server answers 500)
    | AttributeError           // an uncaught Python AttributeError
    | StatementError           // the database refused a statement (SQLAlchemy's error)

  /** The status code the client sees for each error. */
  function Status(e: Error): (code: int)
    ensures e.Http? ==> code == e.code
    ensures !e.Http? ==> code in {400, 403, 404, 500}
  {
    match e
    case DatabaseError => 500
    case ModelNotFoundError => 404
    case ValidationError => 400
    case PermissionError => 403
    case UserNotFoundError => 404
    case HistoryNotFoundError => 404
    case OwnershipHistoryError => 403
    case CommentNotFoundError => 404
    case OwnershipCommentError => 403
    case LikeNotFoundError => 404
    case OwnershipLikeError => 403
    case Http(code) => code
    case TypeError => 500
    case KeyError => 500
    case AttributeError => 500
    case StatementError => 500
  }
}
