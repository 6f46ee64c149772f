/** The ends of a sequence, and what the runs of the machines share. */
module Sequences {

  function Last<T>(s: seq<T>): T
    requires |s| > 0
  {
    s[|s| - 1]
  }

  function Front<T>(s: seq<T>): seq<T>
    requires |s| > 0
  {
    s[..|s| - 1]
  }

  /** 1 for what is counted, 0 for what is not. */
  function One(b: bool): nat
  {
    if b then 1 else 0
  }
}
