/** `scrape_with_retry` of src/scrapers/base.py: up to three calls of the
    marketplace's `scrape`, a screenshot and an HTML dump written after every
    failed call, an exponential back-off between calls, and the last failure
    re-raised. What each call of `scrape` does is an input: the value it
    returned, or the exception it raised together with the outcome of the two
    diagnostic writes that follow. */
module Retry {
  import opened Common

  datatype AttemptOutcome<R> =
    | Completed(value: R)
    | Raised(error: string, screenshotError: Option<string>, htmlError: Option<string>)

  /** A diagnostic file, named after the attempt that wrote it. */
  datatype Artifact = Screenshot(attempt: nat) | HtmlDump(attempt: nat)

  datatype ScrapeOutcome<R> = Returned(result: R) | Failed(error: string)

  /** `stop_after_attempt(3)`. */
  const MaxAttempts: nat := 3

  function Pow2(n: nat): (r: nat)
    ensures r >= 1
  {
    if n == 0 then 1 else 2 * Pow2(n - 1)
  }

  /** `wait_exponential(multiplier=1, min=2, max=10)`: the seconds waited after
      failed attempt `attempt` (counted from one), 2^(attempt-1) clamped into
      [2, 10]. */
  function Backoff(attempt: nat): (w: nat)
    requires attempt >= 1
    ensures 2 <= w <= 10
    ensures Pow2(attempt - 1) < 2 ==> w == 2
    ensures 2 <= Pow2(attempt - 1) <= 10 ==> w == Pow2(attempt - 1)
    ensures Pow2(attempt - 1) > 10 ==> w == 10
  {
    var raw := Pow2(attempt - 1);
    if raw < 2 then 2 else if raw > 10 then 10 else raw
  }

  /** The back-off never shrinks from one attempt to the next. */
  lemma {:induction false} BackoffGrows(attempt: nat)
    requires attempt >= 1
    ensures Backoff(attempt) <= Backoff(attempt + 1)
  {
    assert Pow2(attempt) == 2 * Pow2(attempt - 1);
  }

  /** With three attempts the two waits are both two seconds. */
  lemma WaitsWithinThreeAttempts()
    ensures Backoff(1) == 2 && Backoff(2) == 2
  {
    assert Pow2(1) == 2;
  }

  /** The exception that leaves a failed attempt: a failing screenshot write
      replaces the scrape's exception and skips the HTML dump; a failing HTML
      dump replaces it too. */
  function RaisedError<R>(o: AttemptOutcome<R>): (e: string)
    requires o.Raised?
    ensures o.screenshotError.Some? ==> e == o.screenshotError.value
    ensures o.screenshotError.None? && o.htmlError.Some? ==> e == o.htmlError.value
    ensures o.screenshotError.None? && o.htmlError.None? ==> e == o.error
  {
    match o.screenshotError
    case Some(s) => s
    case None =>
      match o.htmlError
      case Some(h) => h
      case None => o.error
  }

  /** The diagnostic files a failed attempt leaves behind. */
  function FailureArtifacts<R>(o: AttemptOutcome<R>, attempt: nat): (r: seq<Artifact>)
    requires o.Raised?
    ensures o.screenshotError.None? && o.htmlError.None? ==> r == [Screenshot(attempt), HtmlDump(attempt)]
    ensures |r| <= 2 && forall a :: a in r ==> a.attempt == attempt
  {
    if o.screenshotError.Some? then []
    else if o.htmlError.Some? then [Screenshot(attempt)]
    else [Screenshot(attempt), HtmlDump(attempt)]
  }

  /** The run of the retry loop from attempt `n` on. */
  datatype RetryRun<R> = RetryRun(outcome: ScrapeOutcome<R>, attemptsMade: nat, artifacts: seq<Artifact>, waits: seq<nat>)

  function RetryFrom<R>(attempts: seq<AttemptOutcome<R>>, n: nat): (r: RetryRun<R>)
    requires 1 <= n <= |attempts|
    ensures n <= r.attemptsMade <= |attempts|
    decreases |attempts| - n
  {
    var o := attempts[n - 1];
    match o
    case Completed(v) => RetryRun(Returned(v), n, [], [])
    case Raised(_, _, _) =>
      if n == |attempts| then RetryRun(Failed(RaisedError(o)), n, FailureArtifacts(o, n), [])
      else
        var rest := RetryFrom(attempts, n + 1);
        RetryRun(rest.outcome, rest.attemptsMade, FailureArtifacts(o, n) + rest.artifacts, [Backoff(n)] + rest.waits)
  }

  /** The whole retry loop. */
  function RetryRunOf<R>(attempts: seq<AttemptOutcome<R>>): RetryRun<R>
    requires |attempts| == MaxAttempts
  {
    RetryFrom(attempts, 1)
  }

  /** Where the writes of diagnostic files land. */
  class DiagnosticsDir {
    var artifacts: seq<Artifact>

    constructor ()
      ensures artifacts == []
    {
      artifacts := [];
    }
  }

  /** Regrouping a concatenation, stated once so that the loop below need
      not search for it. */
  lemma ConcatAssoc<T>(a: seq<T>, b: seq<T>, c: seq<T>)
    ensures (a + b) + c == a + (b + c)
  {
  }

  /** The retry loop as it runs: calls `scrape` until one call returns or the
      attempts are used up, writing the diagnostics of each failure. */
  method ScrapeWithRetry<R>(dir: DiagnosticsDir, attempts: seq<AttemptOutcome<R>>)
    returns (outcome: ScrapeOutcome<R>, attemptsMade: nat, waits: seq<nat>)
    requires |attempts| == MaxAttempts
    modifies dir
    ensures var run := RetryRunOf(attempts);
      && outcome == run.outcome
      && attemptsMade == run.attemptsMade
      && waits == run.waits
      && dir.artifacts == old(dir.artifacts) + run.artifacts
  {
    var n := 1;
    waits := [];
    ghost var written: seq<Artifact> := [];
    ghost var whole := RetryRunOf(attempts);
    while true
      invariant 1 <= n <= MaxAttempts
      invariant dir.artifacts == old(dir.artifacts) + written
      invariant whole.outcome == RetryFrom(attempts, n).outcome
      invariant whole.attemptsMade == RetryFrom(attempts, n).attemptsMade
      invariant whole.waits == waits + RetryFrom(attempts, n).waits
      invariant whole.artifacts == written + RetryFrom(attempts, n).artifacts
      decreases MaxAttempts - n
    {
      var o := attempts[n - 1];
      if o.Completed? {
        outcome := Returned(o.value);
        attemptsMade := n;
        return;
      }
      ghost var fa := FailureArtifacts(o, n);
      ghost var before := written;
      ConcatAssoc(old(dir.artifacts), written, fa);
      dir.artifacts := dir.artifacts + FailureArtifacts(o, n);
      written := written + fa;
      if n == MaxAttempts {
        outcome := Failed(RaisedError(o));
        attemptsMade := n;
        return;
      }
      ConcatAssoc(before, fa, RetryFrom(attempts, n + 1).artifacts);
      ConcatAssoc(waits, [Backoff(n)], RetryFrom(attempts, n + 1).waits);
      waits := waits + [Backoff(n)];
      n := n + 1;
    }
  }

  // ----- Properties of the loop -----

  /** Every attempt before the last one made failed; the loop returns
      exactly when the last attempt made returned, and fails only after
      using every attempt. */
  lemma {:induction false} RunStopsAtFirstReturn<R>(attempts: seq<AttemptOutcome<R>>, n: nat)
    requires 1 <= n <= |attempts|
    ensures var run := RetryFrom(attempts, n);
      && (forall k :: n - 1 <= k < run.attemptsMade - 1 ==> attempts[k].Raised?)
      && (run.outcome.Returned? <==> attempts[run.attemptsMade - 1].Completed?)
      && (run.outcome.Failed? ==> run.attemptsMade == |attempts|)
    decreases |attempts| - n
  {
    if attempts[n - 1].Raised? && n < |attempts| {
      RunStopsAtFirstReturn(attempts, n + 1);
    }
  }

  /** The loop waits once between two attempts, the back-off of the attempt
      that just failed. */
  lemma {:induction false} RunWaits<R>(attempts: seq<AttemptOutcome<R>>, n: nat)
    requires 1 <= n <= |attempts|
    ensures var run := RetryFrom(attempts, n);
      && |run.waits| == run.attemptsMade - n
      && (forall k :: 0 <= k < |run.waits| ==> run.waits[k] == Backoff(n + k))
    decreases |attempts| - n
  {
    if attempts[n - 1].Raised? && n < |attempts| {
      RunWaits(attempts, n + 1);
      var run := RetryFrom(attempts, n);
      var rest := RetryFrom(attempts, n + 1);
      assert run.waits == [Backoff(n)] + rest.waits;
      forall k | 0 <= k < |run.waits| ensures run.waits[k] == Backoff(n + k) {
        if k > 0 {
          assert run.waits[k] == rest.waits[k - 1];
        }
      }
    }
  }

  /** The first call that returns ends the loop with the value it returned; nothing after it runs. */
  lemma {:induction false} FirstReturnEndsRun<R>(attempts: seq<AttemptOutcome<R>>, n: nat, k: nat)
    requires 1 <= n <= k <= |attempts|
    requires attempts[k - 1].Completed?
    requires forall j :: n - 1 <= j < k - 1 ==> attempts[j].Raised?
    ensures RetryFrom(attempts, n).outcome == Returned(attempts[k - 1].value)
    ensures RetryFrom(attempts, n).attemptsMade == k
    decreases k - n
  {
    if n < k {
      FirstReturnEndsRun(attempts, n + 1, k);
    }
  }

  /** When every attempt fails, the loop re-raises what the last one raised. */
  lemma {:induction false} AllFailReraisesLast<R>(attempts: seq<AttemptOutcome<R>>, n: nat)
    requires 1 <= n <= |attempts|
    requires forall j :: n - 1 <= j < |attempts| ==> attempts[j].Raised?
    ensures RetryFrom(attempts, n).outcome == Failed(RaisedError(attempts[|attempts| - 1]))
    ensures RetryFrom(attempts, n).attemptsMade == |attempts|
    decreases |attempts| - n
  {
    if n < |attempts| {
      AllFailReraisesLast(attempts, n + 1);
    }
  }

  /** A screenshot and an HTML dump for each of `count` attempts from `from` on. */
  function DumpPairs(from: nat, count: nat): (r: seq<Artifact>)
    ensures |r| == 2 * count
    decreases count
  {
    if count == 0 then [] else [Screenshot(from), HtmlDump(from)] + DumpPairs(from + 1, count - 1)
  }

  /** The pairs come in attempt order, the screenshot first. */
  lemma {:induction false} DumpPairsInOrder(from: nat, count: nat)
    ensures forall i :: 0 <= i < count ==>
      DumpPairs(from, count)[2 * i] == Screenshot(from + i) && DumpPairs(from, count)[2 * i + 1] == HtmlDump(from + i)
    decreases count
  {
    if count > 0 {
      DumpPairsInOrder(from + 1, count - 1);
      var r := DumpPairs(from, count);
      var rest := DumpPairs(from + 1, count - 1);
      assert r == [Screenshot(from), HtmlDump(from)] + rest;
      forall i | 1 <= i < count
        ensures r[2 * i] == Screenshot(from + i) && r[2 * i + 1] == HtmlDump(from + i)
      {
        assert r[2 * i] == rest[2 * (i - 1)];
        assert r[2 * i + 1] == rest[2 * (i - 1) + 1];
      }
    }
  }

  /** Diagnostics are written on every failed attempt, not only the last:
      when the writes themselves succeed, each failed attempt leaves its
      screenshot and its HTML dump, in attempt order. */
  lemma {:induction false} DiagnosticsOnEveryFailure<R>(attempts: seq<AttemptOutcome<R>>, n: nat)
    requires 1 <= n <= |attempts|
    requires forall j :: 0 <= j < |attempts| && attempts[j].Raised? ==>
      attempts[j].screenshotError.None? && attempts[j].htmlError.None?
    ensures var run := RetryFrom(attempts, n);
      var failed := if run.outcome.Returned? then run.attemptsMade - n else run.attemptsMade - n + 1;
      run.artifacts == DumpPairs(n, failed)
    decreases |attempts| - n
  {
    var o := attempts[n - 1];
    if o.Raised? && n < |attempts| {
      DiagnosticsOnEveryFailure(attempts, n + 1);
    }
  }

  /** With the three attempts of the source: at most three calls, and a wait
      of two seconds before each call after the first. */
  lemma ThreeAttemptsTwoSecondWaits<R>(attempts: seq<AttemptOutcome<R>>)
    requires |attempts| == MaxAttempts
    ensures var run := RetryRunOf(attempts);
      && 1 <= run.attemptsMade <= 3
      && |run.waits| == run.attemptsMade - 1
      && forall k :: 0 <= k < |run.waits| ==> run.waits[k] == 2
  {
    RunWaits(attempts, 1);
    WaitsWithinThreeAttempts();
  }
}
