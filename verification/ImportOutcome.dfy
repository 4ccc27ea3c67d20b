/** What one import run reports. */
module ImportOutcome {

  /** The tally of a run. */
  datatype ImportResult = ImportResult(seen: int, imported: int, skipped: int, noRecipe: int, failed: int,
                                       degraded: int)

  const NOTHING := ImportResult(0, 0, 0, 0, 0, 0)

  /** Why a run ended with an error. A fetch may have failed because Instagram throttled it. LoginFailed
      reaches the status without a run. */
  datatype RunError = ImportInProgress | LockFailed | FetchFailed(rateLimited: bool) | Cancelled | LoginFailed

  predicate RateLimited(e: RunError)
  {
    e.FetchFailed? && e.rateLimited
  }
}
