/** `drain_execution` in its own form: closures that update `outputs` and `truncated`, and two read loops. */
module KernelLoops {
  import opened Prelude
  import opened Text
  import opened Json
  import opened CellJson
  import opened KernelDrain
  import opened KernelFit

  /** The variables the closures of `drain_execution` share. */
  class Drain {
    const budget: Budget
    var outputs: seq<Json>
    var truncated: bool

    constructor (budget: Budget)
      ensures this.budget == budget && State() == Kept([], false)
    {
      this.budget := budget;
      outputs, truncated := [], false;
    }

    function State(): Kept
      reads this
    {
      Kept(outputs, truncated)
    }

    /** `_fit_text`: binary search for what `FitText` finds by trying ever shorter prefixes. */
    method FitPrefix(m: Maker, text: Text, fieldLimit: Option<nat>) returns (r: Option<(Text, bool)>)
      ensures r == FitText(budget, outputs, m, text, fieldLimit)
    {
      var candidate, cut := text, false;
      if fieldLimit.Some? {
        var capped := CapUtf8(text, fieldLimit.value);
        if capped.None? { return None; }
        candidate, cut := capped.value.0, capped.value.1;
      }
      if Fits(budget, outputs, Make(m, candidate)) { return Some((candidate, cut)); }
      var low, high := 0, |candidate|;
      while low < high
        invariant 0 <= low <= high <= |candidate|
        invariant low == 0 || Fits(budget, outputs, Make(m, candidate[..low]))
        invariant high == |candidate| || !Fits(budget, outputs, Make(m, candidate[..high + 1]))
      {
        var middle := (low + high + 1) / 2;
        if Fits(budget, outputs, Make(m, candidate[..middle])) {
          low := middle;
        } else {
          high := middle - 1;
        }
      }
      LongestFitUnique(budget, outputs, m, candidate, |candidate|, low);
      return Some((candidate[..low], true));
    }

    /** `_append`. */
    method Push(output: Json) returns (kept: bool)
      modifies this
      ensures State() == Append(budget, old(State()), output)
      ensures kept <==> |old(outputs)| < budget.items && Fits(budget, old(outputs), output)
    {
      if |outputs| >= budget.items || !Fits(budget, outputs, output) {
        truncated := true;
        return false;
      }
      outputs := outputs + [output];
      return true;
    }

    /** `_placeholder`. */
    method PushPlaceholder(reason: Text)
      requires Encodable(reason)
      modifies this
      ensures State() == Placeholder(budget, old(State()), reason)
    {
      truncated := true;
      var fitted := FitPrefix(DropReason, reason, Some(MAX_FIELD_BYTES - 11));
      FitTextIsLongest(budget, outputs, DropReason, reason, Some(MAX_FIELD_BYTES - 11));
      var _ := Push(Make(DropReason, fitted.value.0));
    }

    /** `_append_stream`. */
    method PushStream(name: Text, text: Text)
      modifies this
      ensures State() == AppendStream(budget, old(State()), name, text)
    {
      var fitted := FitPrefix(StreamText(name), text, None);
      FitTextIsLongest(budget, outputs, StreamText(name), text, None);
      truncated := truncated || fitted.value.1;
      if fitted.value.0 != [] || text == [] {
        var _ := Push(StreamJson(name, fitted.value.0));
      }
    }

    /** `_append_bundle`. */
    method PushBundle(kind: BundleKind, data: Json, metadata: Json, count: Json)
      modifies this
      ensures State() == AppendBundle(budget, old(State()), kind, data, metadata, count)
    {
      var kept := Push(BundleJson(kind, data, metadata, count));
      if !kept {
        DropTextEncodable(kind);
        PushPlaceholder(DropText(kind));
      }
    }

    /** `_append_error`; true if an unencodable field makes it raise. */
    method PushError(ename: Text, evalue: Text, traceback: seq<Text>) returns (raised: bool)
      modifies this
      ensures raised <==> AppendError(budget, old(State()), ename, evalue, traceback).None?
      ensures !raised ==> Some(State()) == AppendError(budget, old(State()), ename, evalue, traceback)
    {
      ghost var before := State();
      var n := FitPrefix(Ename, ename, FieldLimit());
      if n.None? { return true; }
      var e := FitPrefix(Evalue(n.value.0), evalue, FieldLimit());
      if e.None? { return true; }
      var lost := n.value.1 || e.value.1;
      var frames: seq<Text>, i := [], 0;
      ghost var goal := FitFrames(budget, outputs, n.value.0, e.value.0, [], traceback);
      var done := false;
      assert traceback[0..] == traceback;
      while i < |traceback| && !done
        invariant 0 <= i <= |traceback|
        invariant State() == before
        invariant !done ==> lost == (n.value.1 || e.value.1)
        invariant !done ==> goal == FitFrames(budget, outputs, n.value.0, e.value.0, frames, traceback[i..])
        invariant done ==> lost && goal == Some((frames, true))
      {
        var frame := StripAnsi(traceback[i]);
        var fitted := FitPrefix(Frame(n.value.0, e.value.0, frames), frame, FieldLimit());
        assert traceback[i..][1..] == traceback[i + 1..];
        if fitted.None? { return true; }
        if fitted.value.0 == [] && frame != [] {
          lost, done := true, true;
        } else {
          frames := frames + [fitted.value.0];
          lost := lost || fitted.value.1;
          done := fitted.value.1;
        }
        i := i + 1;
      }
      truncated := truncated || lost;
      var _ := Push(ErrorJson(n.value.0, e.value.0, frames));
      return false;
    }

    /** One own-parent message other than idle, with the cell's status and execution count. */
    method Receive(c: Content, ok: bool, count: Json, ghost failures: nat)
      returns (raised: bool, ok': bool, count': Json)
      modifies this
      ensures var after := Handle(budget, Loop(old(State()), ok, count, failures), c);
              && (raised <==> after.None?)
              && (!raised ==> after == Some(Loop(State(), ok', count', failures)))
    {
      raised, ok', count' := false, ok, count;
      match c
      case Stream(name, text) => PushStream(Or(name, Lit("stdout")), Or(text, []));
      case ExecuteInput(n) => count' := Or(n, count);
      case Bundle(kind, data, metadata, n) =>
        if kind.ExecuteResult? { count' := Or(n, count); }
        PushBundle(kind, OrEmpty(data), OrEmpty(metadata), Or(n, Null));
      case Error(ename, evalue, traceback) =>
        ok' := false;
        raised := PushError(Or(ename, []), Or(evalue, []), traceback);
      case Status(_) =>
      case Other =>
    }

    /** The iopub loop. */
    method ReadIopub(id: Id, trace: seq<Event>) returns (exit: Exit, ok: bool, count: Json, ghost failures: nat)
      requires State() == Kept([], false)
      modifies this
      ensures var (exit', l) := Iopub(budget, id, FRESH, trace);
              exit == exit' && (!exit.Raised? ==> l == Loop(State(), ok, count, failures))
    {
      ok, count, failures := true, Int(0), 0;
      var channelFailures, i := 0, 0;
      assert trace[0..] == trace;
      while i < |trace|
        invariant 0 <= i <= |trace| && failures == channelFailures
        invariant Iopub(budget, id, FRESH, trace)
               == Iopub(budget, id, Loop(State(), ok, count, failures), trace[i..])
      {
        assert trace[i..][1..] == trace[i + 1..];
        match trace[i] {
          case Empty =>
          case Failure =>
            channelFailures := channelFailures + 1;
            failures := channelFailures;
            if channelFailures >= MAX_CHANNEL_FAILURES {
              ok := false;
              return Broken, ok, count, failures;
            }
          case Message(parent, content) =>
            channelFailures, failures := 0, 0;
            if parent == id {
              if content == Status(true) { return Idle, ok, count, failures; }
              var raised;
              raised, ok, count := Receive(content, ok, count, failures);
              if raised { return Raised, ok, count, failures; }
            }
        }
        i := i + 1;
      }
      return Expired, ok, count, failures;
    }
  }

  lemma DropTextEncodable(kind: BundleKind)
    ensures Encodable(DropText(kind))
  {
    PlainLit("execute_result");
    PlainLit("display_data");
    PlainLit(" exceeds output limit");
    EncodableConcat(KindText(kind), Lit(" exceeds output limit"));
  }

  /** The shell loop. */
  method ReadShell(id: Id, replies: seq<Reply>) returns (r: Option<Reply>)
    ensures r == Shell(id, replies)
  {
    var i := 0;
    assert replies[0..] == replies;
    while i < |replies|
      invariant 0 <= i <= |replies|
      invariant Shell(id, replies) == Shell(id, replies[i..])
    {
      assert replies[i..][1..] == replies[i + 1..];
      if replies[i].Silence? { return None; }
      if replies[i].parent == id { return Some(replies[i]); }
      i := i + 1;
    }
    return None;
  }

  /** `drain_execution`. */
  method Execute(budget: Budget, id: Id, trace: seq<Event>, replies: seq<Reply>) returns (r: Outcome)
    ensures r == DrainExecution(budget, id, trace, replies)
  {
    if budget.total < 2 || budget.item < 2 || budget.items < 0 { return BadBudget; }
    var drain := new Drain(budget);
    var exit, ok, count, _ := drain.ReadIopub(id, trace);
    if exit == Raised { return EncodeError; }
    if exit == Expired { return Drained(false, drain.outputs, count, true, drain.truncated); }
    var reply := ReadShell(id, replies);
    ShellReplies(id, replies);
    if reply.None? {
      ok := false;
    } else {
      count := Or(reply.value.count, count);
      if !reply.value.ok { ok := false; }
    }
    return Drained(ok, drain.outputs, count, false, drain.truncated);
  }

  lemma {:induction false} ShellReplies(id: Id, replies: seq<Reply>)
    ensures var r := Shell(id, replies);
            r.Some? ==> r.value.Reply? && r.value.parent == id && r.value in replies
    decreases |replies|
  {
    if replies != [] {
      ShellReplies(id, replies[1..]);
    }
  }
}
