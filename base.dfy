/** Small value wrappers shared by every module: an optional value and a
    success-or-error result, used where the JavaScript code returns `null`
    or catches an exception. */
module Base {

  datatype Option<+T> = None | Some(value: T) {
    function GetOr(default: T): (r: T)
      ensures Some? ==> r == value
      ensures None? ==> r == default
    {
      match this
      case Some(v) => v
      case None => default
    }
  }

  datatype Result<+T, +E> = Ok(value: T) | Err(error: E)

  /** `c` in front of a decoded string; a failure stays a failure. */
  function Prepend(c: char, r: Option<string>): Option<string>
  {
    match r
    case None => None
    case Some(t) => Some([c] + t)
  }
}
