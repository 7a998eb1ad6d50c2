/** Optional values: a nullable column, an absent key, a JavaScript
    `undefined`/`null`, a search that found nothing. */
module Wrappers {

  datatype Option<+T> = None | Some(value: T) {

    function GetOr(default: T): T {
      match this
      case Some(v) => v
      case None => default
    }
  }
}
