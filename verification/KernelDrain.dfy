/**
  `drain_execution`: turns the kernel's message stream into a bounded, ordered list of outputs.
  The functions say what each closure does to the outputs kept so far, and what each loop reads.
 */
module KernelDrain {
  import opened Prelude
  import opened Text
  import opened Json
  import opened CellJson

  const MAX_TOTAL_BYTES: nat := 256 * 1024
  const MAX_ITEM_BYTES: nat := 256 * 1024
  const MAX_ITEMS: nat := 256
  const MAX_FIELD_BYTES: nat := 16 * 1024
  const MAX_CHANNEL_FAILURES: nat := 5

  datatype Budget = Budget(total: int, item: int, items: int) {
    predicate Allowed() { total >= 2 && item >= 2 && items >= 0 }
  }

  const DEFAULT_BUDGET := Budget(MAX_TOTAL_BYTES, MAX_ITEM_BYTES, MAX_ITEMS)

  // ---------------------------------------------------------------- ANSI escapes

  /** The run of digits and semicolons at the start of `t`. */
  function Parameters(t: Text): (n: nat)
    ensures n <= |t|
  {
    if t != [] && (48 <= t[0] <= 57 || t[0] == 59) then 1 + Parameters(t[1..]) else 0
  }

  predicate Letter(c: Code) { 65 <= c <= 90 || 97 <= c <= 122 }

  /** Length of the match of the ANSI pattern at the start of `t`, or 0. */
  function AnsiLength(t: Text): (n: nat)
    ensures n <= |t|
  {
    if |t| >= 3 && t[0] == 27 && t[1] == 91 then
      var k := 2 + Parameters(t[2..]);
      if k < |t| && Letter(t[k]) then k + 1 else 0
    else 0
  }

  function StripAnsi(t: Text): Text
    decreases |t|
  {
    if t == [] then []
    else if AnsiLength(t) > 0 then StripAnsi(t[AnsiLength(t)..])
    else [t[0]] + StripAnsi(t[1..])
  }

  // ---------------------------------------------------------------- fitting one output

  /** `_fits`: both sizes within budget; an encoding error counts as not fitting. */
  predicate Fits(b: Budget, outputs: seq<Json>, output: Json) {
    && Encodable(Dumps(output)) && Size(Dumps(output)) <= b.item
    && Encodable(Dumps(Arr(outputs + [output]))) && Size(Dumps(Arr(outputs + [output]))) <= b.total
  }

  /** The output with one text left open, that `_fit_text` tries prefixes for. */
  datatype Maker =
    | StreamText(name: Text)
    | DropReason
    | Ename
    | Evalue(ename: Text)
    | Frame(ename: Text, evalue: Text, frames: seq<Text>)

  function Dropped(reason: Text): Text { Lit("<dropped: ") + reason + Lit(">") }

  function Make(m: Maker, text: Text): Json {
    match m
    case StreamText(name) => StreamJson(name, text)
    case DropReason => ErrorJson(Lit("OutputDropped"), Dropped(text), [])
    case Ename => ErrorJson(text, [], [])
    case Evalue(ename) => ErrorJson(ename, text, [])
    case Frame(ename, evalue, frames) => ErrorJson(ename, evalue, frames + [text])
  }

  /** The longest prefix of `text[..n]` that fits, found by trying ever shorter ones. */
  function LongestFit(b: Budget, outputs: seq<Json>, m: Maker, text: Text, n: nat): (k: nat)
    requires n <= |text|
    ensures k <= n
  {
    if n == 0 || Fits(b, outputs, Make(m, text[..n])) then n else LongestFit(b, outputs, m, text, n - 1)
  }

  /** `_fit_text`; `None` when capping the field raises. */
  function FitText(b: Budget, outputs: seq<Json>, m: Maker, text: Text, fieldLimit: Option<nat>)
    : Option<(Text, bool)>
  {
    var capped := if fieldLimit.Some? then CapUtf8(text, fieldLimit.value) else Some((text, false));
    if capped.None? then None
    else
      var (candidate, cut) := capped.value;
      if Fits(b, outputs, Make(m, candidate)) then Some((candidate, cut))
      else Some((candidate[..LongestFit(b, outputs, m, candidate, |candidate|)], true))
  }

  // ---------------------------------------------------------------- what each message does

  /** The outputs kept so far, and whether anything was lost. */
  datatype Kept = Kept(outputs: seq<Json>, truncated: bool)

  /** `_append`. */
  function Append(b: Budget, k: Kept, output: Json): Kept {
    if |k.outputs| >= b.items || !Fits(b, k.outputs, output) then k.(truncated := true)
    else k.(outputs := k.outputs + [output])
  }

  function FieldLimit(): Option<nat> { Some(MAX_FIELD_BYTES) }

  /** `_placeholder`; its reason is plain ASCII. */
  function Placeholder(b: Budget, k: Kept, reason: Text): Kept {
    var limit := MAX_FIELD_BYTES - 11;
    var fitted := FitText(b, k.outputs, DropReason, reason, Some(limit));
    if fitted.None? then k.(truncated := true)
    else Append(b, k.(truncated := true), Make(DropReason, fitted.value.0))
  }

  /** `_append_stream`. */
  function AppendStream(b: Budget, k: Kept, name: Text, text: Text): Kept {
    var (fitted, cut) := FitText(b, k.outputs, StreamText(name), text, None).value;
    var k1 := k.(truncated := k.truncated || cut);
    if fitted != [] || text == [] then Append(b, k1, StreamJson(name, fitted)) else k1
  }

  function DropText(kind: BundleKind): Text { KindText(kind) + Lit(" exceeds output limit") }

  /** `_append_bundle`. */
  function AppendBundle(b: Budget, k: Kept, kind: BundleKind, data: Json, metadata: Json, count: Json): Kept {
    var output := BundleJson(kind, data, metadata, count);
    var k1 := Append(b, k, output);
    if |k.outputs| < b.items && Fits(b, k.outputs, output) then k1 else Placeholder(b, k1, DropText(kind))
  }

  /** The loop over a traceback: the frames kept, and whether any was cut or dropped. */
  function FitFrames(b: Budget, outputs: seq<Json>, ename: Text, evalue: Text, kept: seq<Text>, raw: seq<Text>)
    : Option<(seq<Text>, bool)>
    decreases |raw|
  {
    if raw == [] then Some((kept, false))
    else
      var frame := StripAnsi(raw[0]);
      match FitText(b, outputs, Frame(ename, evalue, kept), frame, FieldLimit())
      case None => None
      case Some((fitted, cut)) =>
        if fitted == [] && frame != [] then Some((kept, true))
        else if cut then Some((kept + [fitted], true))
        else FitFrames(b, outputs, ename, evalue, kept + [fitted], raw[1..])
  }

  /** `_append_error`; `None` when an unencodable field makes it raise. */
  function AppendError(b: Budget, k: Kept, ename: Text, evalue: Text, traceback: seq<Text>): Option<Kept> {
    match FitText(b, k.outputs, Ename, ename, FieldLimit())
    case None => None
    case Some((n, cut1)) =>
      match FitText(b, k.outputs, Evalue(n), evalue, FieldLimit())
      case None => None
      case Some((e, cut2)) =>
        match FitFrames(b, k.outputs, n, e, [], traceback)
        case None => None
        case Some((frames, cut3)) =>
          Some(Append(b, k.(truncated := k.truncated || cut1 || cut2 || cut3), ErrorJson(n, e, frames)))
  }

  // ---------------------------------------------------------------- the channels

  /** Content of an iopub message; absent fields are `None`. */
  datatype Content =
    | Stream(name: Option<Text>, text: Option<Text>)
    | ExecuteInput(count: Option<Json>)
    | Bundle(kind: BundleKind, data: Option<Json>, metadata: Option<Json>, count: Option<Json>)
    | Error(ename: Option<Text>, evalue: Option<Text>, traceback: seq<Text>)
    | Status(idle: bool)
    | Other

  type Id = nat

  /** One turn of the iopub loop before its deadline. */
  datatype Event = Message(parent: Id, content: Content) | Empty | Failure

  /** One read of the shell channel before its deadline. */
  datatype Reply = Reply(parent: Id, ok: bool, count: Option<Json>) | Silence

  /** Loop state of the iopub loop. */
  datatype Loop = Loop(kept: Kept, ok: bool, count: Json, failures: nat)

  datatype Exit = Idle | Broken | Expired | Raised

  datatype Outcome =
    | Drained(ok: bool, outputs: seq<Json>, count: Json, timedOut: bool, truncated: bool)
    | EncodeError
    | BadBudget

  function Or<T>(o: Option<T>, default: T): T { if o.Some? then o.value else default }

  /** Python's `value or {}` for a JSON value. */
  function OrEmpty(o: Option<Json>): Json {
    match o
    case None => Obj([])
    case Some(v) =>
      if v == Null || v == Bool(false) || v == Int(0) || v == Str([]) || v == Arr([]) || v == Obj([])
         || (v.Float? && ZeroFloat(v.repr))
      then Obj([]) else v
  }

  /** `0.0` and `-0.0` are falsy. */
  predicate ZeroFloat(repr: Text) { repr == Lit("0.0") || repr == Lit("-0.0") }

  /** One own-parent message; `None` when handling it raises. */
  function Handle(b: Budget, l: Loop, c: Content): Option<Loop> {
    match c
    case Stream(name, text) =>
      Some(l.(kept := AppendStream(b, l.kept, Or(name, Lit("stdout")), Or(text, []))))
    case ExecuteInput(count) => Some(l.(count := Or(count, l.count)))
    case Bundle(kind, data, metadata, count) =>
      Some(l.(count := if kind.ExecuteResult? then Or(count, l.count) else l.count,
              kept := AppendBundle(b, l.kept, kind, OrEmpty(data), OrEmpty(metadata), Or(count, Null))))
    case Error(ename, evalue, traceback) =>
      (match AppendError(b, l.kept, Or(ename, []), Or(evalue, []), traceback)
       case None => None
       case Some(kept) => Some(l.(kept := kept, ok := false)))
    case Status(_) => Some(l)
    case Other => Some(l)
  }

  /** One turn of the iopub loop: the way out if it ends here, and the loop state. */
  function Turn(b: Budget, id: Id, l: Loop, e: Event): (Option<Exit>, Loop) {
    match e
    case Empty => (None, l)
    case Failure =>
      var l1 := l.(failures := l.failures + 1);
      if l1.failures >= MAX_CHANNEL_FAILURES then (Some(Broken), l1.(ok := false)) else (None, l1)
    case Message(parent, content) =>
      var l1 := l.(failures := 0);
      if parent != id then (None, l1)
      else if content == Status(true) then (Some(Idle), l1)
      else
        match Handle(b, l1, content)
        case None => (Some(Raised), l1)
        case Some(l2) => (None, l2)
  }

  /** The iopub loop; the trace ends at the deadline. */
  function Iopub(b: Budget, id: Id, l: Loop, trace: seq<Event>): (Exit, Loop)
    decreases |trace|
  {
    if trace == [] then (Expired, l)
    else
      var (exit, l1) := Turn(b, id, l, trace[0]);
      if exit.Some? then (exit.value, l1) else Iopub(b, id, l1, trace[1..])
  }

  /** The shell loop: the first matching reply before a silence or the deadline. */
  function Shell(id: Id, replies: seq<Reply>): Option<Reply>
    decreases |replies|
  {
    if replies == [] || replies[0].Silence? then None
    else if replies[0].parent == id then Some(replies[0])
    else Shell(id, replies[1..])
  }

  const FRESH := Loop(Kept([], false), true, Int(0), 0)

  /** What is returned after the iopub loop. */
  function Finish(exit: Exit, l: Loop, reply: Option<Reply>): Outcome {
    match exit
    case Raised => EncodeError
    case Expired => Drained(false, l.kept.outputs, l.count, true, l.kept.truncated)
    case _ =>
      var ok := l.ok && reply.Some? && reply.value.Reply? && reply.value.ok;
      var count := if reply.Some? && reply.value.Reply? then Or(reply.value.count, l.count) else l.count;
      Drained(ok, l.kept.outputs, count, false, l.kept.truncated)
  }

  /** `drain_execution` over all that its client can deliver. */
  function DrainExecution(b: Budget, id: Id, trace: seq<Event>, replies: seq<Reply>): Outcome {
    if !b.Allowed() then BadBudget
    else
      var (exit, l) := Iopub(b, id, FRESH, trace);
      Finish(exit, l, Shell(id, replies))
  }
}
