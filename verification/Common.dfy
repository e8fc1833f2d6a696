/** Sequences, options and pass bounds used by several components. */
module Common {

  datatype Option<T> = None | Some(value: T)

  ghost predicate Distinct<T>(s: seq<T>) {
    forall i, j :: 0 <= i < j < |s| ==> s[i] != s[j]
  }

  function Without<T>(s: seq<T>, k: nat): seq<T>
    requires k < |s|
  {
    s[..k] + s[k + 1..]
  }

  /** How many tasks a bounded pass looks at: never the last one, because the loop test asks for a successor. */
  function Examined(length: nat, bound: nat): (n: nat)
    ensures n <= length
  {
    if length == 0 then 0 else if bound < length then bound else length - 1
  }
}
