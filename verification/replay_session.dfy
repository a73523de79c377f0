/**
 * The replay Session's `sampled` decision. A session restored from storage
 * keeps whatever decision it carries; a new one is sampled for the whole
 * session when the session-rate draw hits, otherwise for errors when the
 * error-rate draw hits, otherwise not at all.
 *
 * A draw is an abstract predicate `hit(rate)`; all that is known of it is
 * that a rate of 0 never hits and a rate of 1 always does. The two draws
 * are independent, so each has its own predicate.
 */
module ReplaySession {
  import opened Optional

  /** `false`, `'session'` or `'error'`. */
  datatype Sampled = NotSampled | SessionSampled | ErrorSampled

  datatype SampleRates = SampleRates(sessionSampleRate: real, errorSampleRate: real)

  /** What the laws of a draw promise. */
  ghost predicate Draw(hit: real -> bool)
  {
    !hit(0.0) && hit(1.0)
  }

  /**
   * `new Session(session, rates)`: an existing decision, `false` included,
   * is kept (`??` replaces only a missing one); otherwise the session rate
   * takes precedence over the error rate.
   */
  function Decide(existing: Option<Sampled>, rates: SampleRates,
                  sessionHit: real -> bool, errorHit: real -> bool): (s: Sampled)
    ensures existing.Some? ==> s == existing.value
    ensures existing.None? ==>
      && (s == SessionSampled <==> sessionHit(rates.sessionSampleRate))
      && (s == ErrorSampled <==> !sessionHit(rates.sessionSampleRate) && errorHit(rates.errorSampleRate))
      && (s == NotSampled <==> !sessionHit(rates.sessionSampleRate) && !errorHit(rates.errorSampleRate))
  {
    match existing
    case Some(v) => v
    case None =>
      if sessionHit(rates.sessionSampleRate) then SessionSampled
      else if errorHit(rates.errorSampleRate) then ErrorSampled
      else NotSampled
  }

  /** Test "does not sample": both rates 0. */
  lemma NeitherRateSamples(sessionHit: real -> bool, errorHit: real -> bool)
    requires Draw(sessionHit) && Draw(errorHit)
    ensures Decide(None, SampleRates(0.0, 0.0), sessionHit, errorHit) == NotSampled
  {
  }

  /** Test "samples using `sessionSampleRate`": session rate 1. */
  lemma SessionRateSamples(sessionHit: real -> bool, errorHit: real -> bool)
    requires Draw(sessionHit) && Draw(errorHit)
    ensures Decide(None, SampleRates(1.0, 0.0), sessionHit, errorHit) == SessionSampled
  {
  }

  /** Test "samples using `errorSampleRate`": session rate 0, error rate 1. */
  lemma ErrorRateSamples(sessionHit: real -> bool, errorHit: real -> bool)
    requires Draw(sessionHit) && Draw(errorHit)
    ensures Decide(None, SampleRates(0.0, 1.0), sessionHit, errorHit) == ErrorSampled
  {
  }

  /** Test "does not run sampling function if existing session was sampled". */
  lemma ExistingDecisionKept(sessionHit: real -> bool, errorHit: real -> bool)
    requires Draw(sessionHit) && Draw(errorHit)
    ensures Decide(Some(SessionSampled), SampleRates(0.0, 0.0), sessionHit, errorHit) == SessionSampled
  {
  }

  /**
   * A session saved and fetched again keeps its decision, whatever the
   * rates and draws at fetch time: deciding is idempotent.
   */
  lemma RestoredSessionKeepsDecision(existing: Option<Sampled>, rates: SampleRates, rates2: SampleRates,
                                     sessionHit: real -> bool, errorHit: real -> bool,
                                     sessionHit2: real -> bool, errorHit2: real -> bool)
    ensures var first := Decide(existing, rates, sessionHit, errorHit);
      Decide(Some(first), rates2, sessionHit2, errorHit2) == first
  {
  }

  /** When both draws hit, the session rate wins. */
  lemma SessionRateTakesPrecedence(rates: SampleRates, sessionHit: real -> bool, errorHit: real -> bool)
    requires sessionHit(rates.sessionSampleRate) && errorHit(rates.errorSampleRate)
    ensures Decide(None, rates, sessionHit, errorHit) == SessionSampled
  {
  }
}
