// Types and small functions shared by every module.
module Common {

  datatype Option<+T> = None | Some(value: T) {
    function GetOr(default: T): T {
      if Some? then value else default
    }
  }

  // What a call that may throw leaves: a value, or an exception.
  datatype Outcome<+T> = Done(value: T) | Thrown

  // s || null
  function OrNull(s: string): Option<string> {
    if s == "" then None else Some(s)
  }

  ghost predicate Distinct<T>(s: seq<T>) {
    forall i, j :: 0 <= i < j < |s| ==> s[i] != s[j]
  }
}
