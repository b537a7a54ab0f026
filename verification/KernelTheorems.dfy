/** Main results about the output drain. */
module KernelTheorems {
  import opened Prelude
  import opened Text
  import opened Json
  import opened CellJson
  import opened KernelDrain
  import opened KernelFit
  import opened KernelLoops

  // ---------------------------------------------------------------- reference rendering

  function Stripped(traceback: seq<Text>): seq<Text> {
    seq(|traceback|, i requires 0 <= i < |traceback| => StripAnsi(traceback[i]))
  }

  /** The output a message stands for when nothing is cut. */
  function FullOutput(c: Content): Option<Json> {
    match c
    case Stream(name, text) => Some(StreamJson(Or(name, Lit("stdout")), Or(text, [])))
    case Bundle(kind, data, metadata, count) =>
      Some(BundleJson(kind, OrEmpty(data), OrEmpty(metadata), Or(count, Null)))
    case Error(ename, evalue, traceback) => Some(ErrorJson(Or(ename, []), Or(evalue, []), Stripped(traceback)))
    case _ => None
  }

  /** The loop ends with this event, `failures` channel failures having come since the last message. */
  predicate Ends(id: Id, failures: nat, e: Event) {
    match e
    case Empty => false
    case Failure => failures + 1 >= MAX_CHANNEL_FAILURES
    case Message(parent, content) => parent == id && content == Status(true)
  }

  function FailuresAfter(failures: nat, e: Event): nat {
    match e
    case Empty => failures
    case Failure => failures + 1
    case Message(_, _) => 0
  }

  /** How many events the iopub loop reads. */
  function Consumed(id: Id, failures: nat, trace: seq<Event>): (n: nat)
    ensures n <= |trace|
    decreases |trace|
  {
    if trace == [] then 0
    else if Ends(id, failures, trace[0]) then 1
    else 1 + Consumed(id, FailuresAfter(failures, trace[0]), trace[1..])
  }

  /** What this execution's messages among `events` display, in order and whole. */
  function Rendered(id: Id, events: seq<Event>): seq<Json> {
    if events == [] then [] else RenderedEvent(id, events[0]) + Rendered(id, events[1..])
  }

  function RenderedEvent(id: Id, e: Event): seq<Json> {
    if e.Message? && e.parent == id && FullOutput(e.content).Some? then [FullOutput(e.content).value] else []
  }

  // ---------------------------------------------------------------- one message

  /** What may be kept of a message's output. */
  ghost predicate Abridges(o: Json, c: Content) {
    match c
    case Stream(name, text) =>
      exists t: Text :: t <= Or(text, []) && o == StreamJson(Or(name, Lit("stdout")), t)
    case Bundle(kind, _, _, _) =>
      || Some(o) == FullOutput(c)
      || exists t: Text :: t <= DropText(kind) && o == ErrorJson(Lit("OutputDropped"), Dropped(t), [])
    case Error(ename, evalue, traceback) =>
      exists n: Text, e: Text, frames: seq<Text> ::
        && o == ErrorJson(n, e, frames)
        && n <= Or(ename, []) && e <= Or(evalue, []) && |frames| <= |traceback|
        && forall i | 0 <= i < |frames| :: frames[i] <= StripAnsi(traceback[i])
    case _ => false
  }

  /** A message's output is dropped, or it is appended; either way the flag tells whether it is whole. */
  ghost predicate Accounts(k: Kept, k': Kept, c: Content) {
    if k'.outputs == k.outputs then k'.truncated
    else
      && |k'.outputs| == |k.outputs| + 1
      && k'.outputs[..|k.outputs|] == k.outputs
      && Abridges(k'.outputs[|k.outputs|], c)
      && (k'.truncated <==> k.truncated || Some(k'.outputs[|k.outputs|]) != FullOutput(c))
  }

  lemma StreamAccounts(b: Budget, k: Kept, c: Content)
    requires c.Stream?
    ensures Accounts(k, AppendStream(b, k, Or(c.name, Lit("stdout")), Or(c.text, [])), c)
  {
    var name, text := Or(c.name, Lit("stdout")), Or(c.text, []);
    FitTextIsLongest(b, k.outputs, StreamText(name), text, None);
    var (fitted, cut) := FitText(b, k.outputs, StreamText(name), text, None).value;
    var k' := AppendStream(b, k, name, text);
    if k'.outputs != k.outputs {
      assert k'.outputs[|k.outputs|] == StreamJson(name, fitted);
      assert StreamJson(name, fitted).entries[2].value == Str(fitted);
      assert StreamJson(name, text).entries[2].value == Str(text);
    }
  }

  lemma PlaceholderIsNoBundle(reason: Text, kind: BundleKind, data: Json, metadata: Json, count: Json)
    ensures ErrorJson(Lit("OutputDropped"), reason, []) != BundleJson(kind, data, metadata, count)
  {
    var o, o' := ErrorJson(Lit("OutputDropped"), reason, []).entries, BundleJson(kind, data, metadata, count).entries;
    assert |o[1].key| == 5 && |o'[1].key| == 4;
  }

  /** A placeholder is kept with a prefix of its reason, or not at all; the flag is set. */
  lemma PlaceholderKept(b: Budget, k: Kept, reason: Text)
    requires Encodable(reason)
    ensures var k' := Placeholder(b, k, reason);
            && k'.truncated
            && (k'.outputs == k.outputs
                || exists t: Text :: t <= reason
                     && k'.outputs == k.outputs + [ErrorJson(Lit("OutputDropped"), Dropped(t), [])])
  {
    FitTextIsLongest(b, k.outputs, DropReason, reason, Some(MAX_FIELD_BYTES - 11));
  }

  lemma BundleAccounts(b: Budget, k: Kept, c: Content)
    requires c.Bundle?
    ensures Accounts(k, AppendBundle(b, k, c.kind, OrEmpty(c.data), OrEmpty(c.metadata), Or(c.count, Null)), c)
  {
    var data, metadata, count := OrEmpty(c.data), OrEmpty(c.metadata), Or(c.count, Null);
    var output := BundleJson(c.kind, data, metadata, count);
    if |k.outputs| >= b.items || !Fits(b, k.outputs, output) {
      DropTextEncodable(c.kind);
      var k1 := k.(truncated := true);
      PlaceholderKept(b, k1, DropText(c.kind));
      PlaceholderAccounts(k1, Placeholder(b, k1, DropText(c.kind)), c);
      assert AppendBundle(b, k, c.kind, data, metadata, count) == Placeholder(b, k1, DropText(c.kind));
    }
  }

  /** A placeholder, or nothing, accounts for a bundle. */
  lemma PlaceholderAccounts(k: Kept, k': Kept, c: Content)
    requires c.Bundle? && k'.truncated
    requires k'.outputs == k.outputs
             || exists t: Text :: t <= DropText(c.kind)
                  && k'.outputs == k.outputs + [ErrorJson(Lit("OutputDropped"), Dropped(t), [])]
    ensures Accounts(k, k', c)
  {
    if k'.outputs != k.outputs {
      var t: Text :| t <= DropText(c.kind)
        && k'.outputs == k.outputs + [ErrorJson(Lit("OutputDropped"), Dropped(t), [])];
      PlaceholderIsNoBundle(Dropped(t), c.kind, OrEmpty(c.data), OrEmpty(c.metadata), Or(c.count, Null));
    }
  }

  /** A part of an error output fits where the whole does. */
  lemma ErrorPartFits(b: Budget, outputs: seq<Json>, n: Text, e: Text, frames: seq<Text>)
    requires Fits(b, outputs, ErrorJson(n, e, frames))
    ensures Fits(b, outputs, ErrorJson(n, [], [])) && Fits(b, outputs, ErrorJson(n, e, []))
  {
    ErrorSize(n, e, frames);
    ErrorSize(n, e, []);
    ErrorSize(n, [], []);
    FitsBySize(b, outputs, ErrorJson(n, e, frames));
    FitsSmaller(b, outputs, ErrorJson(n, e, []), ErrorJson(n, e, frames));
    FitsSmaller(b, outputs, ErrorJson(n, [], []), ErrorJson(n, e, frames));
  }

  /** `frames` goes on after `kept` with prefixes of the frames of `raw`, in order. */
  predicate AddsPrefixes(kept: seq<Text>, raw: seq<Text>, frames: seq<Text>) {
    && |kept| <= |frames| <= |kept| + |raw| && frames[..|kept|] == kept
    && forall i | |kept| <= i < |frames| :: frames[i] <= StripAnsi(raw[i - |kept|])
  }

  lemma AddsOne(kept: seq<Text>, fitted: Text, raw: seq<Text>, frames: seq<Text>)
    requires raw != [] && fitted <= StripAnsi(raw[0]) && AddsPrefixes(kept + [fitted], raw[1..], frames)
    ensures AddsPrefixes(kept, raw, frames)
  {
    var n := |kept|;
    assert frames[..n] == frames[..n + 1][..n] && frames[n] == frames[..n + 1][n];
    forall i | n < i < |frames| ensures frames[i] <= StripAnsi(raw[i - n]) {
      assert raw[1..][i - (n + 1)] == raw[i - n];
    }
  }

  lemma StrippedStep(kept: seq<Text>, raw: seq<Text>)
    requires raw != []
    ensures kept + Stripped(raw) == kept + [StripAnsi(raw[0])] + Stripped(raw[1..])
  {
    assert Stripped(raw) == [StripAnsi(raw[0])] + Stripped(raw[1..]);
  }

  /** The frames kept of a traceback, each a prefix; the flag is set iff one is lost or nothing fits. */
  lemma {:induction false} FramesAccount(
    b: Budget, outputs: seq<Json>, n: Text, e: Text, kept: seq<Text>, raw: seq<Text>)
    requires FitFrames(b, outputs, n, e, kept, raw).Some?
    ensures var (frames, cut) := FitFrames(b, outputs, n, e, kept, raw).value;
            && AddsPrefixes(kept, raw, frames)
            && (!cut ==> frames == kept + Stripped(raw))
            && (cut ==> frames != kept + Stripped(raw) || !Fits(b, outputs, ErrorJson(n, e, frames)))
    decreases |raw|
  {
    if raw != [] {
      var frame := StripAnsi(raw[0]);
      FitTextIsLongest(b, outputs, Frame(n, e, kept), frame, FieldLimit());
      var (fitted, cut) := FitText(b, outputs, Frame(n, e, kept), frame, FieldLimit()).value;
      StrippedStep(kept, raw);
      if !(fitted == [] && frame != []) {
        if cut {
          AddsOne(kept, fitted, raw, kept + [fitted]);
          assert (kept + Stripped(raw))[|kept|] == frame;
        } else {
          FramesAccount(b, outputs, n, e, kept + [fitted], raw[1..]);
          AddsOne(kept, fitted, raw, FitFrames(b, outputs, n, e, kept, raw).value.0);
        }
      }
    } else {
      assert kept + Stripped(raw) == kept;
    }
  }

  lemma ErrorAccounts(b: Budget, k: Kept, c: Content)
    requires c.Error? && AppendError(b, k, Or(c.ename, []), Or(c.evalue, []), c.traceback).Some?
    ensures Accounts(k, AppendError(b, k, Or(c.ename, []), Or(c.evalue, []), c.traceback).value, c)
  {
    var ename, evalue := Or(c.ename, []), Or(c.evalue, []);
    FitTextIsLongest(b, k.outputs, Ename, ename, FieldLimit());
    var (n, cut1) := FitText(b, k.outputs, Ename, ename, FieldLimit()).value;
    FitTextIsLongest(b, k.outputs, Evalue(n), evalue, FieldLimit());
    var (e, cut2) := FitText(b, k.outputs, Evalue(n), evalue, FieldLimit()).value;
    FramesAccount(b, k.outputs, n, e, [], c.traceback);
    var (frames, cut3) := FitFrames(b, k.outputs, n, e, [], c.traceback).value;
    assert [] + Stripped(c.traceback) == Stripped(c.traceback);
    if |k.outputs| < b.items && Fits(b, k.outputs, ErrorJson(n, e, frames)) {
      ErrorPartFits(b, k.outputs, n, e, frames);
      ErrorJsonInjective(n, e, frames, ename, evalue, Stripped(c.traceback));
      KeptErrorAccounts(k, k.truncated || cut1 || cut2 || cut3, c, n, e, frames);
    }
  }

  /** An error kept with prefixes of its fields and frames accounts for it if the flag says so. */
  lemma KeptErrorAccounts(k: Kept, truncated: bool, c: Content, n: Text, e: Text, frames: seq<Text>)
    requires c.Error? && n <= Or(c.ename, []) && e <= Or(c.evalue, []) && AddsPrefixes([], c.traceback, frames)
    requires truncated <==> k.truncated || Some(ErrorJson(n, e, frames)) != FullOutput(c)
    ensures Accounts(k, Kept(k.outputs + [ErrorJson(n, e, frames)], truncated), c)
  {
  }

  lemma ErrorJsonInjective(n: Text, e: Text, frames: seq<Text>, n': Text, e': Text, frames': seq<Text>)
    ensures ErrorJson(n, e, frames) == ErrorJson(n', e', frames') <==> n == n' && e == e' && frames == frames'
  {
    var o, o' := ErrorJson(n, e, frames).entries, ErrorJson(n', e', frames').entries;
    if o == o' {
      assert o[1].value == o'[1].value && o[2].value == o'[2].value && o[3].value == o'[3].value;
      assert |Strs(frames)| == |Strs(frames')|;
      forall i | 0 <= i < |frames| ensures frames[i] == frames'[i] {
        assert Strs(frames)[i] == Strs(frames')[i];
      }
    }
  }

  lemma HandleAccounts(b: Budget, l: Loop, c: Content)
    requires Handle(b, l, c).Some?
    ensures if FullOutput(c).Some? then Accounts(l.kept, Handle(b, l, c).value.kept, c)
            else Handle(b, l, c).value.kept == l.kept
    ensures Handle(b, l, c).value.failures == l.failures
    ensures Handle(b, l, c).value.ok == (l.ok && !c.Error?)
  {
    match c
    case Stream(_, _) => StreamAccounts(b, l.kept, c);
    case Bundle(_, _, _, _) => BundleAccounts(b, l.kept, c);
    case Error(_, _, _) => ErrorAccounts(b, l.kept, c);
    case _ =>
  }

  // ---------------------------------------------------------------- the truncation flag

  /** The flag is set exactly when the outputs are not the full rendering. */
  ghost predicate Faithful(k: Kept, full: seq<Json>) {
    |k.outputs| <= |full| && (k.truncated <==> k.outputs != full)
  }

  lemma FaithfulStep(k: Kept, k': Kept, c: Content, full: seq<Json>)
    requires Faithful(k, full) && FullOutput(c).Some? && Accounts(k, k', c)
    ensures Faithful(k', full + [FullOutput(c).value])
  {
    var full' := full + [FullOutput(c).value];
    if k'.outputs != k.outputs {
      if k'.outputs == full' {
        assert full == full'[..|full|] == k'.outputs[..|k.outputs|];
      } else if k.outputs == full {
        assert k'.outputs == k.outputs + [k'.outputs[|k.outputs|]];
      }
    }
  }

  /** How a turn ends, and what it does to the loop state, without looking at the outputs. */
  lemma TurnShape(b: Budget, id: Id, l: Loop, e: Event)
    ensures var (exit, l1) := Turn(b, id, l, e);
            && (exit == None || exit == Some(Raised) ==> !Ends(id, l.failures, e))
            && (exit == Some(Idle) || exit == Some(Broken) ==> Ends(id, l.failures, e))
            && exit != Some(Expired)
            && l1.failures == FailuresAfter(l.failures, e)
            && (exit != Some(Raised) ==> l1.ok == (l.ok && exit != Some(Broken) && !OwnError(id, e)))
  {
    if e.Message? {
      var l1 := l.(failures := 0);
      if Handle(b, l1, e.content).Some? { HandleAccounts(b, l1, e.content); }
    }
  }

  predicate OwnError(id: Id, e: Event) { e.Message? && e.parent == id && e.content.Error? }

  lemma TurnFaithful(b: Budget, id: Id, l: Loop, e: Event, full: seq<Json>)
    requires Faithful(l.kept, full) && Turn(b, id, l, e).0 != Some(Raised)
    ensures Faithful(Turn(b, id, l, e).1.kept, full + RenderedEvent(id, e))
  {
    assert full + [] == full;
    if e.Message? && e.parent == id && e.content != Status(true) {
      var l1, c := l.(failures := 0), e.content;
      HandleAccounts(b, l1, c);
      if FullOutput(c).Some? {
        FaithfulStep(l1.kept, Handle(b, l1, c).value.kept, c, full);
      }
    }
  }

  lemma {:induction false} IopubFaithful(b: Budget, id: Id, l: Loop, trace: seq<Event>, full: seq<Json>)
    requires Faithful(l.kept, full)
    ensures var (exit, l') := Iopub(b, id, l, trace);
            exit != Raised ==> Faithful(l'.kept, full + Rendered(id, trace[..Consumed(id, l.failures, trace)]))
    decreases |trace|
  {
    var n := Consumed(id, l.failures, trace);
    if trace == [] {
      assert full + Rendered(id, trace[..n]) == full;
    } else {
      var (exit, l1) := Turn(b, id, l, trace[0]);
      TurnShape(b, id, l, trace[0]);
      if exit != Some(Raised) {
        TurnFaithful(b, id, l, trace[0], full);
        RenderedCons(id, trace, n, full);
        if exit == None {
          IopubFaithful(b, id, l1, trace[1..], full + RenderedEvent(id, trace[0]));
        } else {
          assert trace[1..][..0] == [];
          assert full + RenderedEvent(id, trace[0]) + [] == full + RenderedEvent(id, trace[0]);
        }
      }
    }
  }

  /** The rendering of the events read, one event at a time. */
  lemma RenderedCons(id: Id, trace: seq<Event>, n: nat, full: seq<Json>)
    requires 0 < n <= |trace|
    ensures full + Rendered(id, trace[..n]) == full + RenderedEvent(id, trace[0]) + Rendered(id, trace[1..][..n - 1])
  {
    assert trace[..n][1..] == trace[1..][..n - 1];
  }

  /** The events that the iopub loop reads. */
  function EventsRead(id: Id, trace: seq<Event>): seq<Event> { trace[..Consumed(id, 0, trace)] }

  /** `truncated` is false if and only if the outputs are the full rendering, in order, of every own
      stream, bundle and error message read. */
  lemma TruncatedExactly(b: Budget, id: Id, trace: seq<Event>, replies: seq<Reply>)
    requires DrainExecution(b, id, trace, replies).Drained?
    ensures var r := DrainExecution(b, id, trace, replies);
            !r.truncated <==> r.outputs == Rendered(id, EventsRead(id, trace))
  {
    IopubFaithful(b, id, FRESH, trace, []);
    assert [] + Rendered(id, EventsRead(id, trace)) == Rendered(id, EventsRead(id, trace));
  }

  // ---------------------------------------------------------------- order

  /** The outputs come from the events in order, at most one from each. */
  ghost predicate InOrder(id: Id, outputs: seq<Json>, events: seq<Event>) {
    if outputs == [] then true
    else if events == [] then false
    else
      var e, init := events[|events| - 1], events[..|events| - 1];
      || InOrder(id, outputs, init)
      || (e.Message? && e.parent == id && Abridges(outputs[|outputs| - 1], e.content)
          && InOrder(id, outputs[..|outputs| - 1], init))
  }

  lemma TurnInOrder(b: Budget, id: Id, l: Loop, e: Event, events: seq<Event>)
    requires InOrder(id, l.kept.outputs, events)
    ensures InOrder(id, Turn(b, id, l, e).1.kept.outputs, events + [e])
  {
    assert (events + [e])[..|events|] == events;
    if e.Message? && e.parent == id && e.content != Status(true) {
      var l1 := l.(failures := 0);
      if Handle(b, l1, e.content).Some? {
        HandleAccounts(b, l1, e.content);
        var after := Handle(b, l1, e.content).value.kept.outputs;
        if after != l.kept.outputs {
          assert after[..|after| - 1] == l.kept.outputs;
        }
      }
    }
  }

  lemma {:induction false} IopubInOrder(b: Budget, id: Id, l: Loop, past: seq<Event>, trace: seq<Event>)
    requires InOrder(id, l.kept.outputs, past)
    ensures InOrder(id, Iopub(b, id, l, trace).1.kept.outputs, past + trace)
    decreases |trace|
  {
    if trace == [] {
      assert past + trace == past;
    } else {
      var (exit, l1) := Turn(b, id, l, trace[0]);
      TurnInOrder(b, id, l, trace[0], past);
      assert trace == [trace[0]] + trace[1..];
      assert past + ([trace[0]] + trace[1..]) == past + [trace[0]] + trace[1..];
      if exit.None? {
        IopubInOrder(b, id, l1, past + [trace[0]], trace[1..]);
      } else {
        InOrderGrows(id, l1.kept.outputs, past + [trace[0]], trace[1..]);
      }
    }
  }

  lemma {:induction false} InOrderGrows(id: Id, outputs: seq<Json>, events: seq<Event>, more: seq<Event>)
    requires InOrder(id, outputs, events)
    ensures InOrder(id, outputs, events + more)
    decreases |more|
  {
    if more == [] {
      assert events + more == events;
    } else {
      InOrderGrows(id, outputs, events, more[..|more| - 1]);
      assert (events + more)[..|events + more| - 1] == events + more[..|more| - 1];
    }
  }

  /** Outputs follow message order, at most one per message, each a cut-down form of its message. */
  lemma OutputsInOrder(b: Budget, id: Id, trace: seq<Event>, replies: seq<Reply>)
    requires DrainExecution(b, id, trace, replies).Drained?
    ensures InOrder(id, DrainExecution(b, id, trace, replies).outputs, trace)
  {
    IopubInOrder(b, id, FRESH, [], trace);
    assert [] + trace == trace;
  }

  // ---------------------------------------------------------------- budgets

  ghost predicate WithinBudget(b: Budget, outputs: seq<Json>) {
    && |outputs| <= b.items
    && (forall o <- outputs :: Encodable(Dumps(o)) && Size(Dumps(o)) <= b.item)
    && Encodable(Dumps(Arr(outputs))) && Size(Dumps(Arr(outputs))) <= b.total
  }

  lemma HandleWithin(b: Budget, l: Loop, c: Content)
    requires WithinBudget(b, l.kept.outputs) && Handle(b, l, c).Some?
    ensures WithinBudget(b, Handle(b, l, c).value.kept.outputs)
  {
  }

  lemma {:induction false} IopubWithin(b: Budget, id: Id, l: Loop, trace: seq<Event>)
    requires WithinBudget(b, l.kept.outputs)
    ensures WithinBudget(b, Iopub(b, id, l, trace).1.kept.outputs)
    decreases |trace|
  {
    if trace != [] {
      var (exit, l1) := Turn(b, id, l, trace[0]);
      if trace[0].Message? && Handle(b, l.(failures := 0), trace[0].content).Some? {
        HandleWithin(b, l.(failures := 0), trace[0].content);
      }
      if exit.None? { IopubWithin(b, id, l1, trace[1..]); }
    }
  }

  /** On every exit, timeouts included, all three budgets hold. */
  lemma BudgetsHold(b: Budget, id: Id, trace: seq<Event>, replies: seq<Reply>)
    requires DrainExecution(b, id, trace, replies).Drained?
    ensures WithinBudget(b, DrainExecution(b, id, trace, replies).outputs)
  {
    DumpsSize(Arr([]));
    IopubWithin(b, id, FRESH, trace);
  }

  // ---------------------------------------------------------------- status

  /** The loop left on the idle message of this execution. */
  predicate LeftOnIdle(id: Id, trace: seq<Event>) {
    var n := Consumed(id, 0, trace);
    n > 0 && trace[n - 1] == Message(id, Status(true))
  }

  /** Among the replies, before any silence, the first to this execution said "ok". */
  ghost predicate SaidOk(id: Id, replies: seq<Reply>) {
    exists j :: 0 <= j < |replies| && replies[j].Reply? && replies[j].parent == id && replies[j].ok
      && forall i | 0 <= i < j :: replies[i].Reply? && replies[i].parent != id
  }

  lemma {:induction false} IopubStatus(b: Budget, id: Id, l: Loop, trace: seq<Event>)
    ensures var (exit, l') := Iopub(b, id, l, trace);
            var n := Consumed(id, l.failures, trace);
            && (exit != Raised ==>
                  && (exit == Idle <==> n > 0 && trace[n - 1] == Message(id, Status(true)))
                  && (exit == Idle ==> (l'.ok <==> l.ok && forall i | 0 <= i < n :: !OwnError(id, trace[i])))
                  && (exit == Broken ==> !l'.ok)
                  && (exit == Expired ==> n == |trace|))
    decreases |trace|
  {
    if trace != [] {
      var (exit, l1) := Turn(b, id, l, trace[0]);
      TurnShape(b, id, l, trace[0]);
      if exit.None? {
        var n := Consumed(id, l.failures, trace);
        IopubStatus(b, id, l1, trace[1..]);
        var m := Consumed(id, l1.failures, trace[1..]);
        assert n == m + 1 && (m > 0 ==> trace[1..][m - 1] == trace[n - 1]);
        assert forall i | 0 < i < n :: trace[i] == trace[1..][i - 1];
        assert forall i | 0 <= i < m :: trace[1..][i] == trace[i + 1];
      }
    }
  }

  lemma {:induction false} ShellSaysOk(id: Id, replies: seq<Reply>)
    ensures var r := Shell(id, replies); SaidOk(id, replies) <==> r.Some? && r.value.Reply? && r.value.ok
    decreases |replies|
  {
    if replies != [] {
      ShellSaysOk(id, replies[1..]);
      if SaidOk(id, replies[1..]) && replies[0].Reply? && replies[0].parent != id {
        var j :| 0 <= j < |replies[1..]| && replies[1..][j].Reply? && replies[1..][j].parent == id && replies[1..][j].ok
          && forall i | 0 <= i < j :: replies[1..][i].Reply? && replies[1..][i].parent != id;
        assert forall i | 0 < i < j + 1 :: replies[i] == replies[1..][i - 1];
        assert replies[j + 1] == replies[1..][j];
      }
      if SaidOk(id, replies) {
        var j :| 0 <= j < |replies| && replies[j].Reply? && replies[j].parent == id && replies[j].ok
          && forall i | 0 <= i < j :: replies[i].Reply? && replies[i].parent != id;
        if j > 0 {
          assert replies[1..][j - 1] == replies[j];
          assert forall i | 0 <= i < j - 1 :: replies[1..][i] == replies[i + 1];
        }
      }
    }
  }

  /** The status is "ok" if and only if the loop left on this execution's idle message, no error message
      of its own came first, and the shell's reply said "ok". */
  lemma StatusExactly(b: Budget, id: Id, trace: seq<Event>, replies: seq<Reply>)
    requires DrainExecution(b, id, trace, replies).Drained?
    ensures DrainExecution(b, id, trace, replies).ok <==>
              && LeftOnIdle(id, trace)
              && (forall e <- EventsRead(id, trace) :: !OwnError(id, e))
              && SaidOk(id, replies)
  {
    IopubStatus(b, id, FRESH, trace);
    ShellSaysOk(id, replies);
    var n := Consumed(id, 0, trace);
    assert forall i | 0 <= i < n :: trace[i] == EventsRead(id, trace)[i];
  }

  /** Some event ends the loop. */
  predicate Stops(id: Id, failures: nat, trace: seq<Event>)
    decreases |trace|
  {
    trace != [] && (Ends(id, failures, trace[0]) || Stops(id, FailuresAfter(failures, trace[0]), trace[1..]))
  }

  lemma {:induction false} IopubExpires(b: Budget, id: Id, l: Loop, trace: seq<Event>)
    ensures var exit := Iopub(b, id, l, trace).0;
            exit != Raised ==> (exit == Expired <==> !Stops(id, l.failures, trace))
    decreases |trace|
  {
    if trace != [] {
      var (exit, l1) := Turn(b, id, l, trace[0]);
      TurnShape(b, id, l, trace[0]);
      if exit.None? { IopubExpires(b, id, l1, trace[1..]); }
    }
  }

  /** A drain times out exactly if nothing ends the loop before the deadline. */
  lemma TimedOutExactly(b: Budget, id: Id, trace: seq<Event>, replies: seq<Reply>)
    requires DrainExecution(b, id, trace, replies).Drained?
    ensures DrainExecution(b, id, trace, replies).timedOut <==> !Stops(id, 0, trace)
  {
    IopubExpires(b, id, FRESH, trace);
  }

  function CountFailures(events: seq<Event>): nat {
    if events == [] then 0 else (if events[0].Failure? then 1 else 0) + CountFailures(events[1..])
  }

  lemma {:induction false} CountAtMost(events: seq<Event>)
    ensures CountFailures(events) <= |events|
  {
    if events != [] { CountAtMost(events[1..]); }
  }

  predicate NoMessages(events: seq<Event>) { forall e <- events :: !e.Message? }

  lemma {:induction false} FailuresEnd(id: Id, f: nat, trace: seq<Event>, i: nat, j: nat)
    requires i <= j <= |trace| && NoMessages(trace[i..j])
    requires (if i == 0 then f else 0) + CountFailures(trace[i..j]) >= MAX_CHANNEL_FAILURES > f
    ensures Stops(id, f, trace) && Consumed(id, f, trace) <= j
    decreases |trace|
  {
    CountAtMost(trace[i..j]);
    if !Ends(id, f, trace[0]) {
      var f1 := FailuresAfter(f, trace[0]);
      if i > 0 {
        assert trace[1..][i - 1..j - 1] == trace[i..j];
        FailuresEnd(id, f1, trace[1..], i - 1, j - 1);
      } else {
        assert trace[1..][0..j - 1] == trace[0..j][1..];
        assert trace[0..j][0] == trace[0];
        FailuresEnd(id, f1, trace[1..], 0, j - 1);
      }
    }
  }

  /** Five channel failures with no message read between them always end the loop. */
  lemma FiveFailuresEnd(b: Budget, id: Id, trace: seq<Event>, replies: seq<Reply>, i: nat, j: nat)
    requires DrainExecution(b, id, trace, replies).Drained?
    requires i <= j <= |trace| && NoMessages(trace[i..j]) && CountFailures(trace[i..j]) >= MAX_CHANNEL_FAILURES
    ensures Consumed(id, 0, trace) <= j && !DrainExecution(b, id, trace, replies).timedOut
  {
    FailuresEnd(id, 0, trace, i, j);
    TimedOutExactly(b, id, trace, replies);
  }

  // ---------------------------------------------------------------- foreign traffic

  predicate Foreign(id: Id, e: Event) { e.Message? && e.parent != id }

  function DropForeign(id: Id, trace: seq<Event>): seq<Event> {
    if trace == [] then []
    else (if Foreign(id, trace[0]) then [] else [trace[0]]) + DropForeign(id, trace[1..])
  }

  function DropForeignReplies(id: Id, replies: seq<Reply>): seq<Reply> {
    if replies == [] then []
    else
      (if replies[0].Reply? && replies[0].parent != id then [] else [replies[0]])
      + DropForeignReplies(id, replies[1..])
  }

  /** With foreign messages deleted the failure count can only be higher; unless that breaks the loop,
      the deletion changes nothing. */
  lemma {:induction false} ForeignInert(b: Budget, id: Id, l: Loop, f: nat, trace: seq<Event>)
    requires l.failures <= f
    requires Iopub(b, id, l.(failures := f), DropForeign(id, trace)).0 != Broken
    ensures var (exit, l1) := Iopub(b, id, l.(failures := f), DropForeign(id, trace));
            var (exit', l2) := Iopub(b, id, l, trace);
            exit == exit' && l1 == l2.(failures := l1.failures)
    decreases |trace|
  {
    if trace != [] {
      var e, rest := trace[0], DropForeign(id, trace[1..]);
      if Foreign(id, e) {
        assert DropForeign(id, trace) == rest;
        ForeignInert(b, id, l.(failures := 0), f, trace[1..]);
      } else {
        assert DropForeign(id, trace)[0] == e && DropForeign(id, trace)[1..] == rest;
        match e
        case Empty => ForeignInert(b, id, l, f, trace[1..]);
        case Failure => ForeignInert(b, id, l.(failures := l.failures + 1), f + 1, trace[1..]);
        case Message(_, c) =>
          if c != Status(true) && Handle(b, l.(failures := 0), c).Some? {
            HandleAccounts(b, l.(failures := 0), c);
            ForeignInert(b, id, Handle(b, l.(failures := 0), c).value, 0, trace[1..]);
          }
      }
    }
  }

  predicate NoFailures(trace: seq<Event>) { forall e <- trace :: !e.Failure? }

  lemma {:induction false} DropForeignKeeps(id: Id, trace: seq<Event>)
    ensures forall e <- DropForeign(id, trace) :: e in trace
  {
    if trace != [] { DropForeignKeeps(id, trace[1..]); }
  }

  lemma {:induction false} RepliesInert(id: Id, replies: seq<Reply>)
    ensures Shell(id, DropForeignReplies(id, replies)) == Shell(id, replies)
    decreases |replies|
  {
    if replies != [] {
      RepliesInert(id, replies[1..]);
      var rest := DropForeignReplies(id, replies[1..]);
      if !(replies[0].Reply? && replies[0].parent != id) {
        assert ([replies[0]] + rest)[1..] == rest;
      } else {
        assert DropForeignReplies(id, replies) == rest;
      }
    }
  }

  /** The first event that ends the loop is a channel failure. */
  predicate GivesUp(id: Id, failures: nat, trace: seq<Event>) {
    var n := Consumed(id, failures, trace);
    n > 0 && trace[n - 1].Failure? && Stops(id, failures, trace)
  }

  lemma GivesUpLater(id: Id, failures: nat, trace: seq<Event>)
    requires trace != [] && !Ends(id, failures, trace[0])
    ensures GivesUp(id, failures, trace) <==> GivesUp(id, FailuresAfter(failures, trace[0]), trace[1..])
  {
    var rest := trace[1..];
    var n := Consumed(id, FailuresAfter(failures, trace[0]), rest);
    assert Consumed(id, failures, trace) == n + 1;
    if n > 0 {
      assert rest[n - 1] == trace[n];
    } else {
      assert rest == [] && !Stops(id, FailuresAfter(failures, trace[0]), rest);
    }
  }

  /** Only such a trace breaks the loop, and it does unless a message read before makes it raise. */
  lemma {:induction false} BrokenExactly(b: Budget, id: Id, l: Loop, trace: seq<Event>)
    ensures var exit := Iopub(b, id, l, trace).0;
            && (exit == Broken ==> GivesUp(id, l.failures, trace))
            && (GivesUp(id, l.failures, trace) ==> exit == Broken || exit == Raised)
    decreases |trace|
  {
    if trace != [] {
      var (exit, l1) := Turn(b, id, l, trace[0]);
      TurnShape(b, id, l, trace[0]);
      if exit.None? {
        BrokenExactly(b, id, l1, trace[1..]);
        GivesUpLater(id, l.failures, trace);
      }
    }
  }

  /** Deleting the messages of other executions changes nothing, unless what is left of the trace ends
      in the failure that gives up: the channel failures no longer have a message between them. */
  lemma ForeignTrafficInert(b: Budget, id: Id, trace: seq<Event>, replies: seq<Reply>)
    requires !GivesUp(id, 0, DropForeign(id, trace))
    ensures DrainExecution(b, id, DropForeign(id, trace), DropForeignReplies(id, replies))
         == DrainExecution(b, id, trace, replies)
  {
    BrokenExactly(b, id, FRESH, DropForeign(id, trace));
    ForeignInert(b, id, FRESH, 0, trace);
    RepliesInert(id, replies);
  }

  /** For a cell that succeeds or times out that is exact: its result survives the deletion if and only
      if what is left of the trace does not give up. */
  lemma ForeignTrafficExactly(b: Budget, id: Id, trace: seq<Event>, replies: seq<Reply>)
    requires var r := DrainExecution(b, id, trace, replies); r.Drained? && (r.ok || r.timedOut)
    ensures DrainExecution(b, id, DropForeign(id, trace), DropForeignReplies(id, replies))
            == DrainExecution(b, id, trace, replies)
       <==> !GivesUp(id, 0, DropForeign(id, trace))
  {
    if GivesUp(id, 0, DropForeign(id, trace)) {
      BrokenExactly(b, id, FRESH, DropForeign(id, trace));
      IopubStatus(b, id, FRESH, DropForeign(id, trace));
    } else {
      ForeignTrafficInert(b, id, trace, replies);
    }
  }

  lemma NeverGivesUp(id: Id, failures: nat, trace: seq<Event>)
    requires NoFailures(trace)
    ensures !GivesUp(id, failures, trace)
  {
    var n := Consumed(id, failures, trace);
    if n > 0 { assert trace[n - 1] in trace; }
  }

  lemma FailureFreeInert(b: Budget, id: Id, trace: seq<Event>, replies: seq<Reply>)
    requires NoFailures(trace)
    ensures DrainExecution(b, id, DropForeign(id, trace), DropForeignReplies(id, replies))
         == DrainExecution(b, id, trace, replies)
  {
    DropForeignKeeps(id, trace);
    NeverGivesUp(id, 0, DropForeign(id, trace));
    ForeignTrafficInert(b, id, trace, replies);
  }

  function Failing(n: nat): seq<Event> { seq(n, _ => Failure) }

  lemma {:induction false} FailingCounts(b: Budget, id: Id, l: Loop, n: nat, tail: seq<Event>)
    requires l.failures + n < MAX_CHANNEL_FAILURES
    ensures Iopub(b, id, l, Failing(n) + tail) == Iopub(b, id, l.(failures := l.failures + n), tail)
    decreases n
  {
    if n == 0 {
      assert Failing(0) + tail == tail;
    } else {
      assert (Failing(n) + tail)[1..] == Failing(n - 1) + tail;
      FailingCounts(b, id, l.(failures := l.failures + 1), n - 1, tail);
    }
  }

  lemma {:induction false} DropForeignFailing(id: Id, n: nat, tail: seq<Event>)
    ensures DropForeign(id, Failing(n) + tail) == Failing(n) + DropForeign(id, tail)
  {
    if n == 0 {
      assert Failing(0) + tail == tail && Failing(0) + DropForeign(id, tail) == DropForeign(id, tail);
    } else {
      assert (Failing(n) + tail)[1..] == Failing(n - 1) + tail;
      DropForeignFailing(id, n - 1, tail);
      assert [Failure] + (Failing(n - 1) + DropForeign(id, tail)) == Failing(n) + DropForeign(id, tail);
    }
  }

  /** Among channel failures foreign messages do matter: one keeps this loop going to its idle message,
      and without it the loop gives up. */
  lemma ForeignMessageResetsFailures(b: Budget)
    requires b.Allowed()
    ensures var trace := Failing(4) + [Message(2, Other), Failure, Message(1, Status(true))];
            var replies := [Reply(1, true, None)];
            && DrainExecution(b, 1, trace, replies) == Drained(true, [], Int(0), false, false)
            && DrainExecution(b, 1, DropForeign(1, trace), replies) == Drained(false, [], Int(0), false, false)
  {
    var idle := [Message(1, Status(true))];
    var tail := [Failure] + idle;
    var trace := Failing(4) + ([Message(2, Other)] + tail);
    assert [Message(2, Other), Failure, Message(1, Status(true))] == [Message(2, Other)] + tail;
    assert ([Message(2, Other)] + tail)[1..] == tail && tail[1..] == idle && idle[1..] == [];
    FailingCounts(b, 1, FRESH, 4, [Message(2, Other)] + tail);
    DropForeignFailing(1, 4, [Message(2, Other)] + tail);
    assert DropForeign(1, idle) == idle && DropForeign(1, tail) == tail;
    assert DropForeign(1, [Message(2, Other)] + tail) == tail;
    FailingCounts(b, 1, FRESH, 4, tail);
    assert Iopub(b, 1, FRESH.(failures := 4), tail).0 == Broken;
    assert Iopub(b, 1, FRESH, tail) == Iopub(b, 1, FRESH.(failures := 1), idle);
  }
}
