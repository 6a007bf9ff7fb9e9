/** Order-preserving selection from a list. */
module Lists {

  /** The elements that satisfy `keep`, in order. */
  function Select<T>(s: seq<T>, keep: T -> bool): (r: seq<T>)
    ensures forall t | t in r :: t in s && keep(t)
    ensures forall t | t in s && keep(t) :: t in r
  {
    if s == [] then []
    else
      var before := Select(s[..|s| - 1], keep);
      if keep(s[|s| - 1]) then before + [s[|s| - 1]] else before
  }

  lemma SelectPush<T>(s: seq<T>, t: T, keep: T -> bool)
    ensures Select(s + [t], keep) == if keep(t) then Select(s, keep) + [t] else Select(s, keep)
  {
    assert (s + [t])[..|s|] == s;
  }
}
