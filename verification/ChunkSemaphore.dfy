/** The global chunk semaphore: bulk acquire and release of tokens under a fixed capacity. */
module ChunkSemaphore {
  import opened Wrappers

  function SumOf(s: seq<nat>): nat {
    if s == [] then 0 else SumOf(s[..|s| - 1]) + s[|s| - 1]
  }

  function RemoveAt(s: seq<nat>, k: nat): seq<nat>
    requires k < |s|
  {
    s[..k] + s[k + 1..]
  }

  lemma {:induction false} SumRemoveAt(s: seq<nat>, k: nat)
    requires k < |s|
    ensures SumOf(RemoveAt(s, k)) == SumOf(s) - s[k]
  {
    var last := |s| - 1;
    if k == last {
      assert RemoveAt(s, k) == s[..last];
    } else {
      SumRemoveAt(s[..last], k);
      assert RemoveAt(s, k) == RemoveAt(s[..last], k) + [s[last]];
      assert (RemoveAt(s[..last], k) + [s[last]])[..last - 1] == RemoveAt(s[..last], k);
    }
  }

  lemma SumPush(s: seq<nat>, x: nat)
    ensures SumOf(s + [x]) == SumOf(s) + x
  {
    assert (s + [x])[..|s|] == s;
  }

  // ---------------------------------------------------------------------
  // The semaphore and its environment as a step system
  // ---------------------------------------------------------------------

  /** Tokens in flight, the grants handed out and not yet released, and the requests still blocked. */
  datatype State = State(capacity: nat, inFlight: int, grants: seq<nat>, waiting: seq<nat>)

  function Clamp(n: nat, capacity: nat): nat {
    if n <= capacity then n else capacity
  }

  /** The wait loop lets a request through. */
  predicate Enabled(s: State, n: nat) {
    s.inFlight + Clamp(n, s.capacity) <= s.capacity
  }

  datatype Step =
    | Request(n: nat)
    | Grant(waiter: nat)
    | Release(grant: nat)

  ghost predicate CanTake(s: State, step: Step) {
    match step
    case Request(_) => true
    case Grant(w) => w < |s.waiting| && Enabled(s, s.waiting[w])
    case Release(g) => g < |s.grants|
  }

  function Take(s: State, step: Step): State
    requires CanTake(s, step)
  {
    match step
    case Request(n) => s.(waiting := s.waiting + [n])
    case Grant(w) =>
      var n := Clamp(s.waiting[w], s.capacity);
      s.(inFlight := s.inFlight + n, grants := s.grants + [n], waiting := RemoveAt(s.waiting, w))
    case Release(g) =>
      if s.inFlight < s.grants[g] then s
      else s.(inFlight := s.inFlight - s.grants[g], grants := RemoveAt(s.grants, g))
  }

  ghost predicate Inv(s: State) {
    s.inFlight == SumOf(s.grants) && s.inFlight <= s.capacity
  }

  /** A run of the step system: any interleaving of requests, grants and releases. */
  ghost predicate Run(capacity: nat, states: seq<State>, steps: seq<Step>) {
    |states| == |steps| + 1
    && states[0] == State(capacity, 0, [], [])
    && forall k | 0 <= k < |steps| :: CanTake(states[k], steps[k]) && states[k + 1] == Take(states[k], steps[k])
  }

  lemma StepKeepsInv(s: State, step: Step)
    requires Inv(s) && CanTake(s, step)
    ensures Inv(Take(s, step)) && Take(s, step).capacity == s.capacity
  {
    match step
    case Request(_) =>
    case Grant(w) => SumPush(s.grants, Clamp(s.waiting[w], s.capacity));
    case Release(g) => SumRemoveAt(s.grants, g);
  }

  /**
   At every point of every run the tokens in flight are exactly the outstanding grants and never
   exceed the capacity.
   */
  lemma {:induction false} TokensConserved(capacity: nat, states: seq<State>, steps: seq<Step>, k: nat)
    requires Run(capacity, states, steps) && k < |states|
    ensures Inv(states[k]) && states[k].capacity == capacity
  {
    hide Inv, Take, CanTake;
    if k == 0 {
      InitInv(capacity);
    } else {
      TokensConserved(capacity, states, steps, k - 1);
      StepKeepsInv(states[k - 1], steps[k - 1]);
    }
  }

  lemma InitInv(capacity: nat)
    ensures Inv(State(capacity, 0, [], []))
  {
  }

  lemma {:induction false} GrantBelowSum(s: seq<nat>, k: nat)
    requires k < |s|
    ensures s[k] <= SumOf(s)
  {
    SumRemoveAt(s, k);
  }

  /** Giving back what was granted never underflows. */
  lemma ReleaseNeverUnderflows(s: State, g: nat)
    requires Inv(s) && g < |s.grants|
    ensures s.grants[g] <= s.inFlight
    ensures Take(s, Release(g)).inFlight == s.inFlight - s.grants[g]
  {
    GrantBelowSum(s.grants, g);
  }

  /** A waiter is let through exactly if what it asked for, but no more than the capacity, is free, and is then granted that. */
  lemma GrantMeaning(s: State, w: nat)
    requires w < |s.waiting|
    ensures var n := if s.waiting[w] <= s.capacity then s.waiting[w] else s.capacity;
            (CanTake(s, Grant(w)) <==> n <= s.capacity - s.inFlight)
            && (CanTake(s, Grant(w)) ==>
                  Take(s, Grant(w)) == State(s.capacity, s.inFlight + n, s.grants + [n], s.waiting[..w] + s.waiting[w + 1..]))
  {
  }

  /** With nothing outstanding every waiter may go, however many tokens it asked for. */
  lemma IdleEnablesAll(s: State)
    requires Inv(s) && SumOf(s.grants) == 0
    ensures forall w | 0 <= w < |s.waiting| :: Enabled(s, s.waiting[w])
  {
  }

  /** If no waiter may go, somebody holds tokens and can give them back. */
  lemma BlockedMeansHeld(s: State)
    requires Inv(s) && s.waiting != []
    requires forall w | 0 <= w < |s.waiting| :: !Enabled(s, s.waiting[w])
    ensures exists g :: 0 <= g < |s.grants| && s.grants[g] > 0
  {
    assert !Enabled(s, s.waiting[0]);
    PositiveSum(s.grants);
  }

  lemma {:induction false} PositiveSum(s: seq<nat>)
    requires SumOf(s) > 0
    ensures exists g :: 0 <= g < |s| && s[g] > 0
  {
    var last := |s| - 1;
    if s[last] == 0 {
      PositiveSum(s[..last]);
      var g :| 0 <= g < last && s[..last][g] > 0;
      assert s[g] > 0;
    }
  }

  // ---------------------------------------------------------------------
  // The object
  // ---------------------------------------------------------------------

  class Semaphore {
    const capacity: nat
    var inFlight: int
    ghost var grants: seq<nat>

    ghost predicate Valid()
      reads this
    {
      inFlight == SumOf(grants) && inFlight <= capacity
    }

    constructor (capacity: nat)
      ensures this.capacity == capacity && Valid() && grants == []
    {
      this.capacity := capacity;
      inFlight, grants := 0, [];
    }

    /** One pass of the wait loop: None keeps the caller waiting, otherwise the tokens granted. */
    method Acquire(n: nat) returns (granted: Option<nat>)
      requires Valid()
      modifies this
      ensures Valid()
      ensures granted.Some? <==> old(inFlight) + (if n <= capacity then n else capacity) <= capacity
      ensures granted.Some? ==> granted.value == if n <= capacity then n else capacity
      ensures granted.Some? ==> grants == old(grants) + [granted.value] && inFlight == old(inFlight) + granted.value
      ensures granted.None? ==> grants == old(grants) && inFlight == old(inFlight)
    {
      var m := if n <= capacity then n else capacity;
      if inFlight + m > capacity {
        return None;
      }
      inFlight := inFlight + m;
      SumPush(grants, m);
      grants := grants + [m];
      granted := Some(m);
    }

    /**
     Gives back n tokens, refusing if that would underflow. Giving back an outstanding grant, the
     g-th say, is never refused.
     */
    method Release(n: nat, ghost g: nat) returns (underflow: bool)
      requires Valid()
      modifies this
      ensures underflow <==> old(inFlight) < n
      ensures underflow ==> inFlight == old(inFlight) && grants == old(grants)
      ensures !underflow ==> inFlight == old(inFlight) - n
      ensures g < |old(grants)| && old(grants)[g] == n ==>
                !underflow && Valid() && grants == RemoveAt(old(grants), g)
    {
      if g < |grants| && grants[g] == n {
        SumRemoveAt(grants, g);
      }
      if inFlight < n {
        return true;
      }
      inFlight := inFlight - n;
      if g < |grants| && grants[g] == n {
        grants := RemoveAt(grants, g);
      }
      underflow := false;
    }
  }
}
