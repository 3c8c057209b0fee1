/** A log of calls, saying of each whether it raised. */
module CallLog {
  /** How many calls raised. */
  function Raises(log: seq<bool>): nat {
    if log == [] then 0 else Raises(log[..|log| - 1]) + if log[|log| - 1] then 1 else 0
  }

  /** The log went on, and some call since then raised exactly if `r`. */
  predicate Logged(before: seq<bool>, after: seq<bool>, r: bool) {
    before <= after && Raises(before) <= Raises(after) && (r <==> Raises(before) < Raises(after))
  }

  lemma LoggedOne(log: seq<bool>, r: bool)
    ensures Logged(log, log + [r], r)
  {
    assert (log + [r])[..|log|] == log;
  }
}
