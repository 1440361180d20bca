/**
  The freshness rule of the timeline cache: a cached copy of the local
  timeline is reused only when it exists and was written less than 300
  seconds ago; otherwise the timeline is fetched and the copy rewritten.
  The clock and the file's modification time are parameters, in seconds.
 */
module TimelineCache {

  /** How long a cached timeline may be reused, in seconds. */
  const MaxAge: real := 300.0

  datatype Source = FromCache | FromNetwork

  /** Where the timeline comes from, given whether a cached copy exists, the time now and the copy's modification time. */
  function TimelineSource(cacheExists: bool, now: real, modified: real): (r: Source)
    ensures r == FromCache ==> cacheExists
    ensures cacheExists ==> (r == FromCache <==> now - modified < MaxAge)
  {
    if cacheExists && now - modified < MaxAge then FromCache else FromNetwork
  }

  /** A copy exactly 300 seconds old is already stale, and so is any older copy. */
  lemma StaleFromMaxAge(now: real, modified: real)
    requires now - modified >= 300.0
    ensures TimelineSource(true, now, modified) == FromNetwork
  {
  }

  /** Once stale, a copy stays stale as time passes. */
  lemma StalenessPersists(now: real, later: real, modified: real)
    requires now <= later
    requires TimelineSource(true, now, modified) == FromNetwork
    ensures TimelineSource(true, later, modified) == FromNetwork
  {
  }

  /** Sample cases: a copy 60 seconds old is reused, one 400 seconds old is refetched, and a missing copy is always fetched. */
  lemma TimelineSourceExamples(modified: real)
    ensures TimelineSource(true, modified + 60.0, modified) == FromCache
    ensures TimelineSource(true, modified + 400.0, modified) == FromNetwork
    ensures TimelineSource(true, modified + 300.0, modified) == FromNetwork
    ensures TimelineSource(false, modified, modified) == FromNetwork
  {
  }
}
