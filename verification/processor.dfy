/**
 * `CommandProcessor<T>`: the template method every processor runs, with its
 * result cache (50 entries, five minutes) and result repository. What the
 * concrete `execute` does is an argument: the result it returned or the
 * exception it threw. Callbacks are collected in the order they fire.
 */
module Processor {
  import opened Wrappers
  import opened Commands
  import LruCache
  import Repository

  const CacheSize: int := 50
  const CacheTtlMs: int := 5 * 60 * 1000

  const ValidationFailed: string := "Validation failed"
  const ProcessingError: string := "Processing error"

  datatype ProcessorState = ProcessorState(
    cache: LruCache.Cache<CommandResult>,
    results: Repository.Repo<CommandResult>)

  const Initial := ProcessorState(LruCache.NewCache(CacheSize, CacheTtlMs), Repository.Repo([]))

  function ResultId(r: CommandResult): string
  {
    r.id
  }

  /** What the concrete `execute` did. */
  datatype Outcome = Returned(result: CommandResult) | Threw(cause: Cause)

  /**
   * `validate`: the default requires an id; the media processor also
   * requires an action and the communication processor a non-empty recipient.
   */
  predicate Validate(c: Command): (r: bool)
    ensures c.id.None? ==> !r
    ensures c.MediaCommand? && c.action.None? ==> !r
    ensures c.CommunicationCommand? && (c.recipient.None? || c.recipient.value == "") ==> !r
    ensures c.SystemCommand? || c.QueryCommand? ==> (r <==> c.id.Some?)
  {
    && c.id.Some?
    && (c.MediaCommand? ==> c.action.Some?)
    && (c.CommunicationCommand? ==> c.recipient.Some? && c.recipient.value != "")
  }

  /** The default `validate` alone: a command with an id passes. */
  lemma DefaultValidation(c: Command)
    requires c.SystemCommand? || c.QueryCommand?
    ensures Validate(c) <==> c.id.Some?
  {
  }

  /**
   * `process`: validate; look the command up in the cache and, on a hit, pass
   * the cached result on and carry on all the same (the `return` leaves only
   * the lambda); execute; rewrap a returned result as a timed success; then
   * cache it (its expiry counted from `now + elapsed`, the clock after
   * `execute`), store it and pass it on. A thrown exception yields a failure that
   * is passed on and neither cached nor stored.
   */
  function Process(st: ProcessorState, c: Command, outcome: Outcome, now: int, elapsed: int,
                   freshId: string): (r: (ProcessorState, seq<CommandResult>))
    ensures !Validate(c) ==> r == (st, [Failure(c.id, Some(ValidationFailed), freshId)])
    ensures Validate(c) ==>
              var (afterGet, hit) := LruCache.Get(st.cache, c.id.value, now);
              && |r.1| == (if hit.Some? then 2 else 1)
              && (hit.Some? ==> r.1[0] == hit.value)
    ensures Validate(c) && outcome.Returned? ==>
              var last := r.1[|r.1| - 1];
              && last == SuccessTimed(c.id, Some(outcome.result.message), elapsed, freshId)
              && r.0.cache == LruCache.Put(LruCache.Get(st.cache, c.id.value, now).0, c.id.value, last,
                                           st.cache.defaultTtl, now + elapsed)
              && r.0.results == Repository.Add(st.results, Some(last), ResultId).0
    ensures Validate(c) && outcome.Threw? ==>
              && r.1[|r.1| - 1] == FailureWithCause(c.id, ProcessingError, Some(outcome.cause), freshId)
              && r.0 == st.(cache := LruCache.Get(st.cache, c.id.value, now).0)
  {
    if !Validate(c) then (st, [Failure(c.id, Some(ValidationFailed), freshId)])
    else
      var key := c.id.value;
      var (afterGet, hit) := LruCache.Get(st.cache, key, now);
      var early := if hit.Some? then [hit.value] else [];
      match outcome
        case Threw(cause) =>
          (st.(cache := afterGet), early + [FailureWithCause(c.id, ProcessingError, Some(cause), freshId)])
        case Returned(result) =>
          var rewrapped := SuccessTimed(c.id, Some(result.message), elapsed, freshId);
          var cached := LruCache.PutDefault(afterGet, key, rewrapped, now + elapsed);
          var stored := Repository.Add(st.results, Some(rewrapped), ResultId).0;
          (ProcessorState(cached, stored), early + [rewrapped])
  }

  /** A returned result always ends as a success, whatever `execute` reported. */
  lemma ReturnedIsSuccess(st: ProcessorState, c: Command, failed: CommandResult, now: int, elapsed: int,
                          freshId: string)
    requires Validate(c) && !failed.success
    ensures var r := Process(st, c, Returned(failed), now, elapsed, freshId).1;
            r[|r| - 1].success && r[|r| - 1].message == failed.message
  {
  }

  /** After a success, the result can be found in the cache under the command id. */
  lemma SuccessIsCached(st: ProcessorState, c: Command, result: CommandResult, now: int, elapsed: int,
                        freshId: string)
    requires Validate(c) && LruCache.Valid(st.cache) && st.cache.maxSize >= 1
    ensures var (after, out) := Process(st, c, Returned(result), now, elapsed, freshId);
            LruCache.Lookup(after.cache, c.id.value).Some? &&
            LruCache.Lookup(after.cache, c.id.value).value.value == out[|out| - 1]
  {
    var (afterGet, _) := LruCache.Get(st.cache, c.id.value, now);
    LruCache.GetValid(st.cache, c.id.value, now);
    LruCache.PutThenLookup(afterGet, c.id.value, SuccessTimed(c.id, Some(result.message), elapsed, freshId),
                           st.cache.defaultTtl, now + elapsed);
  }

  /** A failed validation touches nothing and fires the callback exactly once. */
  lemma ValidationFailureIsInert(st: ProcessorState, c: Command, outcome: Outcome, now: int, elapsed: int,
                                 freshId: string)
    requires !Validate(c)
    ensures Process(st, c, outcome, now, elapsed, freshId).0 == st
    ensures |Process(st, c, outcome, now, elapsed, freshId).1| == 1
    ensures !Process(st, c, outcome, now, elapsed, freshId).1[0].success
  {
  }

  /** `shutdown`: empties the cache; the stored results stay. */
  function Shutdown(st: ProcessorState): (r: ProcessorState)
    ensures r.results == st.results && r.cache.maxSize == st.cache.maxSize
    ensures forall key :: LruCache.Lookup(r.cache, key).None?
  {
    st.(cache := LruCache.Clear(st.cache))
  }
}
