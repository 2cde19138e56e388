/** Optional values, for dictionary lookups that may miss and records that may be skipped. */
module Wrappers {

  datatype Option<+T> = None | Some(value: T) {

    /** The value, or `default` when there is none (Python's `dict.get(key, default)`). */
    function GetOr(default: T): T {
      match this
      case Some(v) => v
      case None => default
    }

    /** Zero or one element, for appending an optional record to a list. */
    function ToSeq(): (s: seq<T>)
      ensures Some? <==> |s| == 1
      ensures None? <==> s == []
      ensures Some? ==> s[0] == value
    {
      match this
      case Some(v) => [v]
      case None => []
    }
  }
}
