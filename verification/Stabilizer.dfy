/** Waiting for a file's size to settle, over an arbitrary sequence of observations. */
module Stabilizer {

  /** What one poll sees; CtxDone stands for cancellation noticed before or after the wait. */
  datatype Observation =
    | Size(bytes: nat)
    | Missing
    | StatError
    | CtxDone

  datatype Outcome = Stable | Removed | StatFailed | Cancelled | StillWaiting

  function Required(checks: int): (n: nat)
    ensures n >= 1 && n >= checks && (n == 1 || n == checks)
  {
    if checks < 1 then 1 else checks
  }

  /** Polls from `from` to `to` all saw the size seen at `to`. */
  predicate Constant(seen: seq<Observation>, from: nat, to: nat)
    requires from <= to < |seen|
  {
    forall i :: from <= i <= to ==> seen[i].Size? && seen[i] == seen[to]
  }

  /** The last n + 1 sizes up to poll k are equal. */
  predicate SettledAt(seen: seq<Observation>, n: nat, k: nat)
    requires k < |seen|
  {
    n <= k && Constant(seen, k - n, k)
  }

  /** The wait ends at poll k at the latest. */
  predicate Decisive(seen: seq<Observation>, n: nat, k: nat)
    requires k < |seen|
  {
    !seen[k].Size? || SettledAt(seen, n, k)
  }

  /**
    Polls until the first decisive observation and reports what it decides; `polls` counts the
    observations used. StillWaiting only means that the given observations were not enough.
  */
  method WaitStable(seen: seq<Observation>, checks: int) returns (outcome: Outcome, polls: nat)
    ensures polls <= |seen|
    ensures outcome.StillWaiting? <==> forall k :: 0 <= k < |seen| ==> !Decisive(seen, Required(checks), k)
    ensures outcome.StillWaiting? ==> polls == |seen|
    ensures !outcome.StillWaiting? ==>
      && polls > 0 && Decisive(seen, Required(checks), polls - 1)
      && (forall k :: 0 <= k < polls - 1 ==> !Decisive(seen, Required(checks), k))
      && (outcome.Stable? <==> seen[polls - 1].Size?) && (outcome.Removed? <==> seen[polls - 1].Missing?)
      && (outcome.StatFailed? <==> seen[polls - 1].StatError?) && (outcome.Cancelled? <==> seen[polls - 1].CtxDone?)
    ensures Succeeds(seen[..polls], checks) <==> outcome.Stable?
  {
    var needed := checks;
    if needed < 1 {
      needed := 1;
    }
    var lastSize := -1;
    var stable := 0;
    polls := 0;
    while polls < |seen|
      invariant polls <= |seen| && needed == Required(checks)
      invariant polls == 0 ==> lastSize == -1 && stable == 0
      // stable is the length of the maximal constant suffix, minus one
      invariant polls > 0 ==> seen[polls - 1].Size? && seen[polls - 1].bytes == lastSize
      invariant polls > 0 ==> 0 <= stable < polls && Constant(seen, polls - 1 - stable, polls - 1)
      invariant polls > 0 && stable + 1 < polls ==> seen[polls - 2 - stable] != seen[polls - 1]
      invariant 0 <= stable < needed
      invariant forall k :: 0 <= k < polls ==> !Decisive(seen, needed, k)
    {
      assert !seen[polls].Size? ==> Decisive(seen, needed, polls);
      match seen[polls] {
        case CtxDone =>
          EndsHere(seen, checks, polls);
          return Cancelled, polls + 1;
        case Missing =>
          EndsHere(seen, checks, polls);
          return Removed, polls + 1;
        case StatError =>
          EndsHere(seen, checks, polls);
          return StatFailed, polls + 1;
        case Size(size) =>
          if size == lastSize {
            stable := stable + 1;
            if stable >= needed {
              assert Constant(seen, polls - needed, polls);
              assert Decisive(seen, needed, polls);
              EndsHere(seen, checks, polls);
              return Stable, polls + 1;
            }
          } else {
            stable := 0;
            lastSize := size;
          }
      }
      polls := polls + 1;
    }
    outcome := StillWaiting;
    assert seen[..polls] == seen;
    assert polls > 0 ==> !Decisive(seen, needed, polls - 1);
  }

  /** The wait reports success on exactly these observations, the last one being the decisive one. */
  predicate Succeeds(seen: seq<Observation>, checks: int) {
    seen != [] && SettledAt(seen, Required(checks), |seen| - 1)
    && forall k :: 0 <= k < |seen| - 1 ==> !Decisive(seen, Required(checks), k)
  }

  /** The wait that ends at poll k is a success exactly if that poll saw a size. */
  lemma {:induction false} EndsHere(seen: seq<Observation>, checks: int, k: nat)
    requires k < |seen| && Decisive(seen, Required(checks), k)
    requires forall j :: 0 <= j < k ==> !Decisive(seen, Required(checks), j)
    ensures Succeeds(seen[..k + 1], checks) <==> seen[k].Size?
  {
    var n, first := Required(checks), seen[..k + 1];
    forall j | 0 <= j <= k
      ensures SettledAt(first, n, j) <==> SettledAt(seen, n, j)
      ensures Decisive(first, n, j) <==> Decisive(seen, n, j)
    {
      assert n <= j ==> (Constant(first, j - n, j) <==> Constant(seen, j - n, j));
    }
    assert SettledAt(first, n, k) <==> SettledAt(seen, n, k);
    assert n <= k && SettledAt(seen, n, k) ==> seen[k].Size?;
  }

  function FirstPolls(poll: nat -> Observation, n: nat): (seen: seq<Observation>)
    ensures |seen| == n && forall k :: 0 <= k < n ==> seen[k] == poll(k)
  {
    seq(n, i requires 0 <= i => poll(i))
  }

  /**
    The wait ends on every sequence of polls that at some poll n is missing, failing or cancelled,
    or stays constant for the required number of further polls -- and then by poll n + Required(checks).
  */
  lemma {:induction false} EndsOnceSettled(poll: nat -> Observation, n: nat, checks: int)
    requires !poll(n).Size? || forall k :: n <= k <= n + Required(checks) ==> poll(k) == poll(n)
    ensures var seen := FirstPolls(poll, n + Required(checks) + 1);
      exists k :: n <= k < |seen| && Decisive(seen, Required(checks), k)
  {
    var c := Required(checks);
    var seen := FirstPolls(poll, n + c + 1);
    if poll(n).Size? {
      assert Constant(seen, n, n + c);
      assert Decisive(seen, c, n + c);
    } else {
      assert Decisive(seen, c, n);
    }
  }

  /** A success needs more polls than the required number of checks, all of them sizes. */
  lemma {:induction false} SuccessNeedsEnoughPolls(seen: seq<Observation>, checks: int)
    requires Succeeds(seen, checks)
    ensures |seen| > Required(checks) && forall k :: 0 <= k < |seen| ==> seen[k].Size?
    ensures forall k :: |seen| - 1 - Required(checks) <= k < |seen| ==> seen[k] == seen[|seen| - 1]
    ensures |seen| >= Required(checks) + 2 ==> seen[|seen| - Required(checks) - 2] != seen[|seen| - 1]
  {
    var c, n := Required(checks), |seen| - 1;
    forall k | 0 <= k < n
      ensures seen[k].Size?
    {
      assert !Decisive(seen, c, k);
    }
    if |seen| >= c + 2 {
      assert !Decisive(seen, c, n - 1);
      assert seen[n - c - 1] == seen[n] ==> Constant(seen, n - 1 - c, n - 1);
    }
  }
}
