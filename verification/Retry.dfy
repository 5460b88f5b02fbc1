/**
 * The two bounded retry loops: `checkCli` of publish-cli-npm.ts and `syncApp`
 * of inngest-verify.ts, against an environment that answers as it likes.
 */
module Retry {
  import opened Common

  // ---- checkCli ----

  const VERIFY_WINDOW_MS: nat := 600_000

  /** The pause after try `attempt`: 20 seconds, 10 longer after each, up to a minute. */
  function VerifyPause(attempt: nat): nat
    requires attempt >= 1
  {
    var ms := 20_000 + (attempt - 1) * 10_000;
    if ms < 60_000 then ms else 60_000
  }

  /** 20 seconds after the first try, 10 longer after each of the next four, a minute from the fifth on. */
  lemma PauseAfterEachTry(n: nat)
    requires n >= 1
    ensures VerifyPause(1) == 20_000
    ensures if n < 5 then VerifyPause(n + 1) == VerifyPause(n) + 10_000 else VerifyPause(n) == 60_000
  {
  }

  /** What the first `n` pauses come to, the window cutting the last one short. */
  function PausedFor(n: nat): nat {
    if n == 0 then 0
    else
      var total := PausedFor(n - 1) + VerifyPause(n);
      if total < VERIFY_WINDOW_MS then total else VERIFY_WINDOW_MS
  }

  /** Twelve pauses reach the window, and eleven do not. */
  lemma TwelvePausesReachTheWindow()
    ensures PausedFor(12) == VERIFY_WINDOW_MS == 600_000 && PausedFor(11) == 560_000
  {
    assert PausedFor(1) == 20_000 && PausedFor(2) == 50_000 && PausedFor(3) == 90_000;
    assert PausedFor(4) == 140_000 && PausedFor(5) == 200_000 && PausedFor(6) == 260_000;
    assert PausedFor(7) == 320_000 && PausedFor(8) == 380_000 && PausedFor(9) == 440_000;
    assert PausedFor(10) == 500_000;
  }

  /** One try: when it was answered (from the start), what was printed, and the sleep asked for after it. */
  datatype Try = Try(waited: nat, printed: string, slept: Option<nat>)

  /** The world `checkCli` runs in: what try `k` prints, how long it takes, how late its sleep ends. */
  datatype World = World(printed: nat -> string, runs: nat -> nat, late: nat -> nat)

  /** The sleep after try `n`: its pause, or what is left of the window. */
  function SleepAfter(n: nat, waited: nat): (ms: nat)
    requires n >= 1 && waited < VERIFY_WINDOW_MS
    ensures ms <= VerifyPause(n) && waited + ms <= VERIFY_WINDOW_MS
    ensures ms == VerifyPause(n) || waited + ms == VERIFY_WINDOW_MS
  {
    if VerifyPause(n) < VERIFY_WINDOW_MS - waited then VerifyPause(n) else VERIFY_WINDOW_MS - waited
  }

  /** Try `k` failed inside the window, and its sleep was its pause, or less where the window ends first. */
  ghost predicate Failed(w: World, version: string, k: nat, t: Try)
    requires k >= 1
  {
    && t.printed == w.printed(k) && t.printed != version
    && t.waited < VERIFY_WINDOW_MS && t.slept == Some(SleepAfter(k, t.waited))
  }

  /** When the try after these starts: once the last sleep is over. */
  ghost function NextStart(w: World, tries: seq<Try>): nat {
    if tries == [] then 0
    else
      var last := tries[|tries| - 1];
      last.waited + last.slept.GetOr(0) + w.late(|tries|)
  }

  /** A run of failed tries, each answered after the sleep of the one before and its own run. */
  ghost predicate Trace(w: World, version: string, tries: seq<Try>) {
    tries == [] ||
    (var before, last := tries[..|tries| - 1], tries[|tries| - 1];
     && Trace(w, version, before)
     && Failed(w, version, |tries|, last)
     && last.waited == NextStart(w, before) + w.runs(|tries|))
  }

  lemma TraceGrows(w: World, version: string, tries: seq<Try>, waited: nat)
    requires Trace(w, version, tries) && waited == NextStart(w, tries) + w.runs(|tries| + 1)
    requires w.printed(|tries| + 1) != version && waited < VERIFY_WINDOW_MS
    ensures var pause := SleepAfter(|tries| + 1, waited);
      var t := Try(waited, w.printed(|tries| + 1), Some(pause));
      Trace(w, version, tries + [t]) && NextStart(w, tries + [t]) == waited + pause + w.late(|tries| + 1)
  {
    var t := Try(waited, w.printed(|tries| + 1), Some(SleepAfter(|tries| + 1, waited)));
    assert (tries + [t])[..|tries|] == tries;
  }

  /** How the run ended: the last try's answer, or the window. */
  ghost predicate Ended(w: World, version: string, tries: seq<Try>, ok: bool) {
    tries != [] &&
    (var before, last := tries[..|tries| - 1], tries[|tries| - 1];
     && Trace(w, version, before)
     && last == Try(NextStart(w, before) + w.runs(|tries|), w.printed(|tries|), None)
     && (ok <==> last.printed == version)
     && (!ok ==> last.waited >= VERIFY_WINDOW_MS))
  }

  lemma Ends(w: World, version: string, tries: seq<Try>, last: Try, ok: bool)
    requires Trace(w, version, tries)
    requires last == Try(NextStart(w, tries) + w.runs(|tries| + 1), w.printed(|tries| + 1), None)
    requires (ok <==> last.printed == version) && (!ok ==> last.waited >= VERIFY_WINDOW_MS)
    ensures Ended(w, version, tries + [last], ok)
  {
    assert (tries + [last])[..|tries|] == tries;
  }

  /** At least the pauses of `n` tries have gone by. */
  ghost predicate Elapsed(clock: nat, n: nat) { clock >= PausedFor(n) }

  lemma PausedStep(n: nat, waited: nat, late: nat)
    requires n >= 1 && Elapsed(waited, n - 1) && waited < VERIFY_WINDOW_MS
    ensures n <= 12 && Elapsed(waited + SleepAfter(n, waited) + late, n)
  {
    TwelvePausesReachTheWindow();
    if n >= 13 { PausedGrows(12, n - 1); }
  }

  lemma {:induction false} PausedGrows(m: nat, n: nat)
    requires m <= n
    ensures PausedFor(m) <= PausedFor(n) <= VERIFY_WINDOW_MS
  {
    if m < n { PausedGrows(m, n - 1); } else if n > 0 { PausedGrows(n - 1, n - 1); }
  }

  /**
   * Runs the published CLI until it prints `version`: at most 13 tries, every
   * sleep inside the window, and no answer of false before a try at its end.
   */
  method CheckCli(version: string, w: World) returns (ok: bool, tries: seq<Try>)
    ensures 1 <= |tries| <= 13
    ensures Ended(w, version, tries, ok)
  {
    tries := [];
    var clock: nat := 0;
    var attempt: nat := 1;
    while true
      invariant attempt == |tries| + 1 <= 13
      invariant Elapsed(clock, attempt - 1)
      invariant Trace(w, version, tries) && clock == NextStart(w, tries)
      decreases 13 - attempt
    {
      var text := w.printed(attempt);
      clock := clock + w.runs(attempt);
      var waited := clock;
      var last := Try(waited, text, None);
      if text == version {
        Ends(w, version, tries, last, true);
        return true, tries + [last];
      }
      if waited >= VERIFY_WINDOW_MS {
        Ends(w, version, tries, last, false);
        return false, tries + [last];
      }
      PausedStep(attempt, waited, w.late(attempt));
      var pause := SleepAfter(attempt, waited);
      TraceGrows(w, version, tries, waited);
      tries := tries + [Try(waited, text, Some(pause))];
      clock := clock + pause + w.late(attempt);
      attempt := attempt + 1;
    }
  }

  /** Without delays of its own, the run starts each try exactly the pauses of the tries before it after the first. */
  lemma {:induction false} PromptTrace(w: World, version: string, tries: seq<Try>)
    requires Trace(w, version, tries) && forall k :: w.runs(k) == 0 && w.late(k) == 0
    ensures NextStart(w, tries) == PausedFor(|tries|) && |tries| <= 12
    decreases |tries|
  {
    if tries != [] {
      var n := |tries|;
      PromptTrace(w, version, tries[..n - 1]);
      TwelvePausesReachTheWindow();
      if n == 13 { assert false; }
    }
  }

  /** Thirteen is exact: where tries take no time and sleeps end on time, a run that fails makes thirteen. */
  lemma PromptFailureMakesThirteen(w: World, version: string, tries: seq<Try>)
    requires Ended(w, version, tries, false) && forall k :: w.runs(k) == 0 && w.late(k) == 0
    ensures |tries| == 13
  {
    var n := |tries|;
    PromptTrace(w, version, tries[..n - 1]);
    TwelvePausesReachTheWindow();
    if n <= 12 { PausedGrows(n - 1, 11); }
  }

  // ---- syncApp ----

  const SYNC_DEFAULT_RETRY_MS: real := 2_000.0
  const SYNC_MIN_RETRY_MS: real := 1_000.0
  const SYNC_MAX_RETRY_MS: real := 15_000.0

  const RETRYABLE: set<int> := {429, 502, 503, 504}

  /** A Retry-After header: absent or blank, a finite number of seconds, or anything else. */
  datatype RetryAfter = Blank | Seconds(s: real) | NotFinite

  datatype Response = Response(status: int, ok: bool, retryAfter: RetryAfter)

  /** How long to wait before the next attempt; none when the answer is final. */
  function SyncRetryDelayMs(status: int, retryAfter: RetryAfter): (d: Option<real>)
    ensures d.Some? <==> status == 429 || status == 502 || status == 503 || status == 504
    ensures d.Some? ==> 1_000.0 <= d.value <= 15_000.0
    ensures d.Some? && retryAfter.Seconds? && 1.0 <= retryAfter.s <= 15.0 ==> d.value == retryAfter.s * 1000.0
    ensures d.Some? && retryAfter.Seconds? && 0.0 <= retryAfter.s < 1.0 ==> d.value == 1_000.0
    ensures d.Some? && retryAfter.Seconds? && retryAfter.s > 15.0 ==> d.value == 15_000.0
    ensures d.Some? && (!retryAfter.Seconds? || retryAfter.s < 0.0) ==> d.value == 2_000.0
  {
    if status !in RETRYABLE then None
    else if !retryAfter.Seconds? || retryAfter.s < 0.0 then Some(SYNC_DEFAULT_RETRY_MS)
    else
      var ms := retryAfter.s * 1000.0;
      var low := if ms < SYNC_MIN_RETRY_MS then SYNC_MIN_RETRY_MS else ms;
      Some(if low < SYNC_MAX_RETRY_MS then low else SYNC_MAX_RETRY_MS)
  }

  function Total(sleeps: seq<real>): real {
    if sleeps == [] then 0.0 else Total(sleeps[..|sleeps| - 1]) + sleeps[|sleeps| - 1]
  }

  /** Attempt `k` was answered with a refusal that asks for this delay. */
  ghost predicate Retried(answer: nat -> Response, k: nat, delay: real) {
    !answer(k).ok && SyncRetryDelayMs(answer(k).status, answer(k).retryAfter) == Some(delay)
  }

  /**
   * Syncs the app, `answer(k)` being the response to attempt `k`. It returns
   * normally only after an ok response; otherwise it fails on a final answer or
   * on a delay the budget no longer holds. It makes |sleeps| + 1 attempts.
   */
  method SyncApp(answer: nat -> Response, budgetMs: real) returns (synced: bool, sleeps: seq<real>)
    requires budgetMs >= 0.0
    ensures 0.0 <= Total(sleeps) <= budgetMs
    ensures |sleeps| as real * 1000.0 <= budgetMs
    ensures forall k | 0 <= k < |sleeps| :: Retried(answer, k + 1, sleeps[k])
    ensures var last := answer(|sleeps| + 1);
      && (synced <==> last.ok)
      && (!synced ==>
            var d := SyncRetryDelayMs(last.status, last.retryAfter);
            d.None? || Total(sleeps) + d.value > budgetMs)
  {
    sleeps := [];
    var waited := 0.0;
    var attempt: nat := 1;
    while true
      invariant attempt == |sleeps| + 1 && waited == Total(sleeps)
      invariant |sleeps| as real * 1000.0 <= waited <= budgetMs
      invariant forall k | 0 <= k < |sleeps| :: Retried(answer, k + 1, sleeps[k])
      decreases budgetMs.Floor + 1 - attempt * 1000
    {
      var response := answer(attempt);
      if response.ok {
        return true, sleeps;
      }
      var delay := SyncRetryDelayMs(response.status, response.retryAfter);
      if delay.None? || waited + delay.value > budgetMs {
        return false, sleeps;
      }
      waited := waited + delay.value;
      assert (sleeps + [delay.value])[..|sleeps|] == sleeps;
      sleeps := sleeps + [delay.value];
      attempt := attempt + 1;
    }
  }
}
