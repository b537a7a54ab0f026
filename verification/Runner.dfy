/** `handle_request` between taking and releasing the thread lock: callbacks, cleanup and audit. */
module Runner {
  import opened Prelude
  import SlackChunks

  /** An exception; only an `Exception` is turned into a result, a cancellation is not. */
  datatype Raised = Ordinary(message: string) | Cancelled

  /** How an awaited callback ends. */
  datatype Outcome<T> = Returns(value: T) | Raises(exc: Raised)

  datatype RunStatus = Okay | BudgetExceeded | Failed

  datatype Usage = Usage(inputTokens: int, outputTokens: int, costUsd: Option<real>)

  datatype RunResult = RunResult(output: string, usage: Usage, status: RunStatus, error: Option<string>)

  /** What every callback of one request would do if it were called.  `cleanup` may be absent. */
  datatype Callbacks = Callbacks(
    loadConfig: Outcome<string>, fetchTranscript: Outcome<()>, buildDeps: Outcome<()>,
    run: Outcome<RunResult>, refresh: Outcome<()>, cleanup: Option<Outcome<()>>, audit: Outcome<()>)

  /** `AuditRecord`, without the fields copied from the event; the configuration is its model name. */
  datatype AuditRecord = AuditRecord(model: string, usage: Usage, status: RunStatus, error: Option<string>)

  datatype Event = Refreshed | CleanedUp | Audited(record: AuditRecord)

  /** How `handle_request` ends. */
  datatype Exit = Replied(chunks: seq<string>) | Propagated(exc: Raised)

  const ERROR_TEXT := "I hit an internal error while handling that request."
  const BUDGET_TEXT := "I stopped because this request hit its budget limit."
  const CHUNK_LIMIT := 3900

  /** `_error_result`. */
  function ErrorResult(message: string): RunResult {
    RunResult(ERROR_TEXT, Usage(0, 0, None), Failed, Some(message))
  }

  /** `_display_output`. */
  function DisplayOutput(r: RunResult): string {
    if r.output != "" then r.output
    else match r.status case BudgetExceeded => BUDGET_TEXT case Failed => ERROR_TEXT case Okay => ""
  }

  /** Side effects of one request, in order. */
  class Effects {
    var log: seq<Event>

    constructor ()
      ensures log == []
    {
      log := [];
    }

    /** The `try` block: the first exception ends it, as `pending`. */
    method Attempt(c: Callbacks)
      returns (config: Option<string>, depsBuilt: bool, result: RunResult, pending: Option<Raised>)
      modifies this
      ensures config == (if c.loadConfig.Returns? then Some(c.loadConfig.value) else None)
      ensures depsBuilt == DepsBuilt(c)
      ensures match Tried(c)
              case Returns(r) => pending == None && result == r
              case Raises(exc) => pending == Some(exc)
      ensures log == old(log) + RefreshLog(c)
    {
      config, depsBuilt, result, pending := None, false, ErrorResult(""), None;
      if c.loadConfig.Raises? { pending := Some(c.loadConfig.exc); return; }
      config := Some(c.loadConfig.value);
      if c.fetchTranscript.Raises? { pending := Some(c.fetchTranscript.exc); return; }
      if c.buildDeps.Raises? { pending := Some(c.buildDeps.exc); return; }
      depsBuilt := true;
      if c.run.Raises? { pending := Some(c.run.exc); return; }
      result := c.run.value;
      if result.status == Okay {
        if c.refresh.Raises? { pending := Some(c.refresh.exc); return; }
        log := log + [Refreshed];
      }
    }

    /** `handle_request` under its lock. */
    method HandleRequest(c: Callbacks) returns (exit: Exit)
      requires log == []
      modifies this
      ensures exit == ExitOf(c) && log == LogOf(c)
    {
      var config, depsBuilt, result, pending := Attempt(c);
      // `except Exception`, then `finally`.
      if pending.Some? && pending.value.Ordinary? {
        result := ErrorResult(pending.value.message);
        pending := None;
      }
      assert Settled(c) == if pending.Some? then None else Some(result);
      if c.cleanup.Some? && depsBuilt {
        log := log + [CleanedUp];
        if c.cleanup.value.Raises? { return Propagated(c.cleanup.value.exc); }
      }
      if pending.Some? { return Propagated(pending.value); }
      exit := Report(c, result, if config.Some? then config.value else "");
    }

    /** The audit, and the reply if it succeeds. */
    method Report(c: Callbacks, result: RunResult, model: string) returns (exit: Exit)
      modifies this
      ensures exit == if c.audit.Raises? then Propagated(c.audit.exc) else Replied(Chunked(DisplayOutput(result)))
      ensures log == old(log) + if c.audit.Raises? then [] else [Audited(Record(model, result))]
    {
      if c.audit.Raises? { return Propagated(c.audit.exc); }
      log := log + [Audited(Record(model, result))];
      var chunks := SlackChunks.Split(DisplayOutput(result), CHUNK_LIMIT);
      return Replied(chunks.value);
    }
  }

  // ---------------------------------------------------------------- what a request amounts to

  /** All of what `deps_factory` needs went well. */
  predicate DepsBuilt(c: Callbacks) { c.loadConfig.Returns? && c.fetchTranscript.Returns? && c.buildDeps.Returns? }

  /** What the `try` block comes to: the runner's result, or the first exception. */
  function Tried(c: Callbacks): Outcome<RunResult> {
    if c.loadConfig.Raises? then Raises(c.loadConfig.exc)
    else if c.fetchTranscript.Raises? then Raises(c.fetchTranscript.exc)
    else if c.buildDeps.Raises? then Raises(c.buildDeps.exc)
    else if c.run.Returns? && c.run.value.status == Okay && c.refresh.Raises? then Raises(c.refresh.exc)
    else c.run
  }

  /** The result once ordinary exceptions are turned into results; `None` if a cancellation goes on. */
  function Settled(c: Callbacks): Option<RunResult> {
    match Tried(c)
    case Returns(r) => Some(r)
    case Raises(Ordinary(message)) => Some(ErrorResult(message))
    case Raises(Cancelled) => None
  }

  function CleanupRuns(c: Callbacks): bool { c.cleanup.Some? && DepsBuilt(c) }

  function ExitOf(c: Callbacks): Exit {
    if CleanupRuns(c) && c.cleanup.value.Raises? then Propagated(c.cleanup.value.exc)
    else if Settled(c).None? then Propagated(Cancelled)
    else if c.audit.Raises? then Propagated(c.audit.exc)
    else Replied(Chunked(DisplayOutput(Settled(c).value)))
  }

  /** The reply as Slack messages. */
  function Chunked(text: string): seq<string> { SlackChunks.SplitForSlack(text, CHUNK_LIMIT).value }

  function Record(model: string, r: RunResult): AuditRecord { AuditRecord(model, r.usage, r.status, r.error) }

  function RecordOf(c: Callbacks, r: RunResult): AuditRecord {
    Record(if c.loadConfig.Returns? then c.loadConfig.value else "", r)
  }

  function RefreshLog(c: Callbacks): seq<Event> {
    if DepsBuilt(c) && c.run.Returns? && c.run.value.status == Okay && c.refresh.Returns? then [Refreshed] else []
  }

  function CleanupLog(c: Callbacks): seq<Event> { if CleanupRuns(c) then [CleanedUp] else [] }

  function AuditLog(c: Callbacks): seq<Event> {
    if ExitOf(c).Replied? then [Audited(RecordOf(c, Settled(c).value))] else []
  }

  function LogOf(c: Callbacks): seq<Event> { RefreshLog(c) + CleanupLog(c) + AuditLog(c) }

  // ---------------------------------------------------------------- one run, one audit

  function Audits(log: seq<Event>): seq<AuditRecord> {
    if log == [] then [] else (if log[0].Audited? then [log[0].record] else []) + Audits(log[1..])
  }

  function Cleanups(log: seq<Event>): nat {
    if log == [] then 0 else (if log[0].CleanedUp? then 1 else 0) + Cleanups(log[1..])
  }

  lemma CountsCons(e: Event, rest: seq<Event>)
    ensures Audits([e] + rest) == (if e.Audited? then [e.record] else []) + Audits(rest)
    ensures Cleanups([e] + rest) == (if e.CleanedUp? then 1 else 0) + Cleanups(rest)
  {
    assert ([e] + rest)[1..] == rest;
  }

  lemma CountsJoin(a: seq<Event>, b: seq<Event>)
    ensures Audits(a + b) == Audits(a) + Audits(b) && Cleanups(a + b) == Cleanups(a) + Cleanups(b)
  {
    AuditsJoin(a, b);
    CleanupsJoin(a, b);
  }

  lemma AuditsStep(e: Event, a: seq<Event>, b: seq<Event>)
    requires Audits(a + b) == Audits(a) + Audits(b)
    ensures Audits([e] + a + b) == Audits([e] + a) + Audits(b)
  {
    var first: seq<AuditRecord> := if e.Audited? then [e.record] else [];
    calc {
      Audits([e] + a + b);
    == { Associate([e], a, b); }
      Audits([e] + (a + b));
    == { CountsCons(e, a + b); }
      first + (Audits(a) + Audits(b));
    == { Associate(first, Audits(a), Audits(b)); }
      first + Audits(a) + Audits(b);
    == { CountsCons(e, a); }
      Audits([e] + a) + Audits(b);
    }
  }

  lemma Associate<T>(a: seq<T>, b: seq<T>, c: seq<T>)
    ensures a + b + c == a + (b + c)
  {
  }

  lemma {:induction false} AuditsJoin(a: seq<Event>, b: seq<Event>)
    ensures Audits(a + b) == Audits(a) + Audits(b)
  {
    if a == [] {
      assert a + b == b;
    } else {
      AuditsJoin(a[1..], b);
      AuditsStep(a[0], a[1..], b);
      assert a == [a[0]] + a[1..];
    }
  }

  lemma {:induction false} CleanupsJoin(a: seq<Event>, b: seq<Event>)
    ensures Cleanups(a + b) == Cleanups(a) + Cleanups(b)
  {
    if a == [] {
      assert a + b == b;
    } else {
      CleanupsJoin(a[1..], b);
      assert (a + b)[0] == a[0] && (a + b)[1..] == a[1..] + b;
    }
  }

  lemma CountsOne(e: Event)
    ensures Audits([e]) == (if e.Audited? then [e.record] else []) && Cleanups([e]) == if e.CleanedUp? then 1 else 0
  {
    CountsCons(e, []);
    assert [e] + [] == [e];
  }

  lemma LogCounts(c: Callbacks)
    ensures Audits(LogOf(c)) == if ExitOf(c).Replied? then [RecordOf(c, Settled(c).value)] else []
    ensures Cleanups(LogOf(c)) == if CleanupRuns(c) then 1 else 0
  {
    CountsOne(Refreshed);
    CountsOne(CleanedUp);
    if ExitOf(c).Replied? { CountsOne(Audited(RecordOf(c, Settled(c).value))); }
    CountsJoin(RefreshLog(c), CleanupLog(c));
    CountsJoin(RefreshLog(c) + CleanupLog(c), AuditLog(c));
  }

  lemma ChunkedJoins(text: string)
    ensures SlackChunks.Join(Chunked(text)) == text
  {
    SlackChunks.SplitTheorem(text, CHUNK_LIMIT);
  }

  /** Whatever the callbacks do: a request that returns has written exactly one audit record, and one
      that does not has written none; cleanup ran once if dependencies were built and never otherwise,
      and before the audit; the record says success exactly if the snapshot refresh completed; and the chunks
      returned are the text of the very result that was audited. */
  lemma OneRunOneAudit(c: Callbacks)
    ensures var log, exit := LogOf(c), ExitOf(c);
            && Cleanups(log) == (if c.cleanup.Some? && DepsBuilt(c) then 1 else 0)
            && |Audits(log)| == (if exit.Replied? then 1 else 0)
            && (exit.Replied? ==>
                  && log[|log| - 1] == Audited(Audits(log)[0])
                  && (Audits(log)[0].status == Okay <==> Refreshed in log)
                  && exists r: RunResult ::
                       && Audits(log)[0] == RecordOf(c, r)
                       && SlackChunks.Join(exit.chunks) == DisplayOutput(r)
                       && (r == ErrorResult(Or(r.error, "")) || c.run == Returns(r)))
  {
    LogCounts(c);
    var log := LogOf(c);
    if ExitOf(c).Replied? {
      var r := Settled(c).value;
      ChunkedJoins(DisplayOutput(r));
      assert log[|log| - 1] == Audited(RecordOf(c, r));
      if r.status == Okay { assert log[0] == Refreshed; }
    }
  }

  function Or(o: Option<string>, default: string): string { if o.Some? then o.value else default }

  /** A request returns if and only if no callback that is reached is cancelled, cleanup does not raise
      where it runs, and the audit sink does not raise.  Ordinary exceptions of the callbacks in the
      `try` block, whichever they are, never get out. */
  lemma RepliesExactly(c: Callbacks)
    ensures ExitOf(c).Replied? <==>
              && c.loadConfig != Raises(Cancelled)
              && (c.loadConfig.Returns? ==>
                    && c.fetchTranscript != Raises(Cancelled)
                    && (c.fetchTranscript.Returns? ==> c.buildDeps != Raises(Cancelled)))
              && (DepsBuilt(c) ==>
                    && c.run != Raises(Cancelled)
                    && (c.run.Returns? && c.run.value.status == Okay ==> c.refresh != Raises(Cancelled))
                    && (c.cleanup.Some? ==> c.cleanup.value.Returns?))
              && c.audit.Returns?
  {
  }

  /** The runner was reached and returned, and so did the snapshot refresh where it was due. */
  predicate Succeeds(c: Callbacks) {
    DepsBuilt(c) && c.run.Returns? && (c.run.value.status == Okay ==> c.refresh.Returns?)
  }

  /** `exc` is what the first callback to raise raises. */
  predicate FailsWith(c: Callbacks, exc: Raised) {
    || c.loadConfig == Raises(exc)
    || (c.loadConfig.Returns? && c.fetchTranscript == Raises(exc))
    || (c.loadConfig.Returns? && c.fetchTranscript.Returns? && c.buildDeps == Raises(exc))
    || (DepsBuilt(c) && c.run == Raises(exc))
    || (DepsBuilt(c) && c.run.Returns? && c.run.value.status == Okay && c.refresh == Raises(exc))
  }

  /** What is replied and what is recorded.  If all went well, the reply is the runner's output, or for want
      of one a text that goes with its status, and the record has the runner's usage, status and error.
      Otherwise the reply is the error text, and the record has the message of the first exception. */
  lemma ReplyAndRecordExactly(c: Callbacks)
    requires ExitOf(c).Replied?
    ensures |Audits(LogOf(c))| == 1
    ensures var reply, record := SlackChunks.Join(ExitOf(c).chunks), Audits(LogOf(c))[0];
            && record.model == (if c.loadConfig.Returns? then c.loadConfig.value else "")
            && (Succeeds(c) ==>
                  var r := c.run.value;
                  && record.usage == r.usage && record.status == r.status && record.error == r.error
                  && (r.output != "" ==> reply == r.output)
                  && (r.output == "" && r.status == BudgetExceeded ==>
                        reply == "I stopped because this request hit its budget limit.")
                  && (r.output == "" && r.status == Failed ==>
                        reply == "I hit an internal error while handling that request.")
                  && (r.output == "" && r.status == Okay ==> reply == ""))
            && (!Succeeds(c) ==>
                  && record.usage == Usage(0, 0, None) && record.status == Failed
                  && record.error.Some? && FailsWith(c, Ordinary(record.error.value))
                  && reply == "I hit an internal error while handling that request.")
  {
    LogCounts(c);
    ChunkedJoins(DisplayOutput(Settled(c).value));
  }
}
