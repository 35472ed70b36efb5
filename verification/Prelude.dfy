/** What several components share. */
module Prelude {

  datatype Option<+T> = None | Some(value: T)

  datatype Result<+T, +E> = Ok(value: T) | Err(error: E)

  const U32_LIMIT: nat := 0x1_0000_0000

  /** What the caller of a backend learns. A statement, script or commit that failed or timed
      out may all the same have been applied by its server. */
  datatype Outcome = Succeeded | Failed(applied: bool)

  /** A run of a step machine: step `k` leads from state `k` to state `k + 1`. */
  datatype Run<State, Step> = Run(states: seq<State>, steps: seq<Step>)

  function Last<State, Step>(run: Run<State, Step>): State
    requires |run.states| > 0
  {
    run.states[|run.states| - 1]
  }

  function Extended<State, Step>(run: Run<State, Step>, step: Step, next: State): Run<State, Step> {
    Run(run.states + [next], run.steps + [step])
  }

  /** A token's `jti` claim. */
  type Jti = nat

  /** A client address. */
  type Ip = nat

  /** `duration_since`: the time from `since` to `now`, zero if the clock went back. */
  function DurationSince(now: int, since: int): int {
    if now < since then 0 else now - since
  }

  lemma SubsetSize<T>(a: set<T>, b: set<T>)
    requires a <= b
    ensures |a| <= |b|
  {
    assert b == a + (b - a);
  }
}
