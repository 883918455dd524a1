/** The absent-or-present value used for SQL rows, PHP `null` and `false` results. */
module Wrappers {

  datatype Option<T> = None | Some(value: T) {

    /** Returns the value, or `default` when there is none. */
    function GetOr(default: T): T {
      match this
      case Some(v) => v
      case None => default
    }
  }

  /** The two exceptions the DAV layer throws: `Sabre\DAV\Exception\Forbidden` and `...\NotFound`. */
  datatype DavError = Forbidden | NotFound | NotAuthenticated
}
