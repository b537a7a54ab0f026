/** What a message displays, and what count a cell gets, in terms of the messages' own fields. */
module KernelRendering {
  import opened Prelude
  import opened Text
  import opened Json
  import opened CellJson
  import opened KernelDrain
  import opened KernelLoops
  import opened KernelTheorems

  // ---------------------------------------------------------------- streams, bundles and errors

  /** A stream displays its text under its name; only an absent name or text is filled in. */
  lemma StreamDisplays(name: Option<Text>, text: Option<Text>)
    ensures FullOutput(Stream(name, text))
         == Some(StreamJson(if name.Some? then name.value else Lit("stdout"), if text.Some? then text.value else []))
  {
  }

  /** What Python takes for false: nothing, no, zero, and whatever is empty. */
  predicate Falsy(v: Json) {
    match v
    case Null => true
    case Bool(b) => !b
    case Int(n) => n == 0
    case Float(repr) => repr == Lit("0.0") || repr == Lit("-0.0")
    case Str(s) => |s| == 0
    case Arr(items) => |items| == 0
    case Obj(entries) => |entries| == 0
  }

  /** A bundle displays its data and its metadata, each an empty object if absent or falsy, and its count,
      or null without one. */
  lemma BundleDisplays(kind: BundleKind, data: Option<Json>, metadata: Option<Json>, count: Option<Json>)
    ensures var d := if data.Some? && !Falsy(data.value) then data.value else Obj([]);
            var m := if metadata.Some? && !Falsy(metadata.value) then metadata.value else Obj([]);
            var n := if count.Some? then count.value else Null;
            FullOutput(Bundle(kind, data, metadata, count)) == Some(BundleJson(kind, d, m, n))
  {
  }

  /** An error displays its name, its value and one stripped frame for each of its traceback. */
  lemma ErrorDisplays(ename: Option<Text>, evalue: Option<Text>, raw: seq<Text>)
    ensures var frames := seq(|raw|, i requires 0 <= i < |raw| => StripAnsi(raw[i]));
            FullOutput(Error(ename, evalue, raw))
            == Some(ErrorJson(if ename.Some? then ename.value else [],
                              if evalue.Some? then evalue.value else [], frames))
  {
  }

  /** Nothing else is displayed. */
  lemma OthersDisplayNothing(c: Content)
    ensures FullOutput(c) == None <==> c.ExecuteInput? || c.Status? || c.Other?
  {
  }

  // ---------------------------------------------------------------- what stripping a frame removes

  const ESCAPE: Code := 27
  const BRACKET: Code := 91
  const SEMICOLON: Code := 59

  predicate Parameter(c: Code) { 48 <= c <= 57 || c == SEMICOLON }

  /** `t` starts with a match of the ANSI pattern of length `n`: an escape, a bracket, digits and
      semicolons, and a letter. */
  predicate IsAnsi(t: Text, n: nat) {
    && 3 <= n <= |t| && t[0] == ESCAPE && t[1] == BRACKET
    && (forall i | 2 <= i < n - 1 :: Parameter(t[i]))
    && Letter(t[n - 1])
  }

  lemma {:induction false} ParametersExactly(t: Text)
    ensures var k := Parameters(t);
            && (forall i | 0 <= i < k :: Parameter(t[i])) && (k < |t| ==> !Parameter(t[k]))
  {
    if t != [] && Parameter(t[0]) {
      ParametersExactly(t[1..]);
      assert forall i | 0 < i < |t| :: t[i] == t[1..][i - 1];
    }
  }

  lemma AnsiLengthExactly(t: Text, n: nat)
    ensures IsAnsi(t, n) <==> n > 0 && AnsiLength(t) == n
  {
    if |t| >= 3 {
      ParametersExactly(t[2..]);
      var k := 2 + Parameters(t[2..]);
      assert forall i | 2 <= i < |t| :: t[i] == t[2..][i - 2];
      if IsAnsi(t, n) {
        assert !Parameter(t[n - 1]);
      }
    }
  }

  /** A character that is kept, or a match that is removed. */
  datatype Piece = Kept(c: Code) | Removed(ansi: Text)

  function Whole(pieces: seq<Piece>): Text {
    if pieces == [] then []
    else (match pieces[0] case Kept(c) => [c] case Removed(ansi) => ansi) + Whole(pieces[1..])
  }

  function KeptOf(pieces: seq<Piece>): Text {
    if pieces == [] then [] else (match pieces[0] case Kept(c) => [c] case Removed(_) => []) + KeptOf(pieces[1..])
  }

  /** The removed pieces are matches, and no match starts at a character that is kept. */
  ghost predicate Leftmost(pieces: seq<Piece>) {
    forall i | 0 <= i < |pieces| ::
      match pieces[i]
      case Removed(ansi) => IsAnsi(ansi, |ansi|)
      case Kept(_) => forall n: nat :: !IsAnsi(Whole(pieces[i..]), n)
  }

  lemma LeftmostCons(p: Piece, rest: seq<Piece>)
    requires Leftmost(rest)
    requires match p
             case Removed(ansi) => IsAnsi(ansi, |ansi|)
             case Kept(c) => forall n: nat :: !IsAnsi([c] + Whole(rest), n)
    ensures Leftmost([p] + rest)
  {
    var pieces := [p] + rest;
    assert pieces[1..] == rest && pieces[0..] == pieces;
    forall i | 0 < i < |pieces| ensures pieces[i] == rest[i - 1] && pieces[i..] == rest[i - 1..] {}
  }

  lemma PiecesCons(p: Piece, rest: seq<Piece>)
    ensures Whole([p] + rest) == (match p case Kept(c) => [c] case Removed(ansi) => ansi) + Whole(rest)
    ensures KeptOf([p] + rest) == (match p case Kept(c) => [c] case Removed(_) => []) + KeptOf(rest)
  {
    assert ([p] + rest)[1..] == rest;
  }

  /** The pieces make up `t`, and `StripAnsi` keeps what they keep. */
  ghost predicate Splits(t: Text, pieces: seq<Piece>) {
    Whole(pieces) == t && KeptOf(pieces) == StripAnsi(t) && Leftmost(pieces)
  }

  lemma RemovesFirst(t: Text, n: nat, rest: seq<Piece>)
    requires 0 < n == AnsiLength(t) && Splits(t[n..], rest)
    ensures Splits(t, [Removed(t[..n])] + rest)
  {
    AnsiLengthExactly(t, n);
    PiecesCons(Removed(t[..n]), rest);
    LeftmostCons(Removed(t[..n]), rest);
    assert t == t[..n] + t[n..];
  }

  lemma KeepsFirst(t: Text, rest: seq<Piece>)
    requires t != [] && AnsiLength(t) == 0 && Splits(t[1..], rest)
    ensures Splits(t, [Piece.Kept(t[0])] + rest)
  {
    assert t == [t[0]] + Whole(rest);
    forall m: nat ensures !IsAnsi([t[0]] + Whole(rest), m) { AnsiLengthExactly(t, m); }
    PiecesCons(Piece.Kept(t[0]), rest);
    LeftmostCons(Piece.Kept(t[0]), rest);
  }

  /** A displayed frame is the raw frame without exactly its leftmost, non-overlapping ANSI matches. */
  lemma {:induction false} StripsExactly(t: Text) returns (pieces: seq<Piece>)
    ensures Splits(t, pieces)
    decreases |t|
  {
    var n := AnsiLength(t);
    if t == [] {
      pieces := [];
    } else if n > 0 {
      var rest := StripsExactly(t[n..]);
      RemovesFirst(t, n, rest);
      pieces := [Removed(t[..n])] + rest;
    } else {
      var rest := StripsExactly(t[1..]);
      KeepsFirst(t, rest);
      pieces := [Piece.Kept(t[0])] + rest;
    }
  }

  // ---------------------------------------------------------------- the execution count

  /** The count that an event of this execution carries, if it carries one that matters. */
  function CarriedCount(id: Id, e: Event): Option<Json> {
    match e
    case Message(parent, ExecuteInput(Some(count))) => if parent == id then Some(count) else None
    case Message(parent, Bundle(ExecuteResult, _, _, Some(count))) => if parent == id then Some(count) else None
    case _ => None
  }

  /** `count` is the last one carried by the events, or `before` if none carries one. */
  ghost predicate LastCarried(id: Id, events: seq<Event>, before: Json, count: Json) {
    || (count == before && forall i | 0 <= i < |events| :: CarriedCount(id, events[i]) == None)
    || exists j | 0 <= j < |events| ::
         CarriedCount(id, events[j]) == Some(count)
         && forall i | j < i < |events| :: CarriedCount(id, events[i]) == None
  }

  lemma LastCarriedCons(id: Id, e: Event, events: seq<Event>, before: Json, count: Json)
    requires LastCarried(id, events, if CarriedCount(id, e).Some? then CarriedCount(id, e).value else before, count)
    ensures LastCarried(id, [e] + events, before, count)
  {
    var all := [e] + events;
    assert forall i | 0 < i < |all| :: all[i] == events[i - 1];
    if j :| 0 <= j < |events| && CarriedCount(id, events[j]) == Some(count)
            && forall i | j < i < |events| :: CarriedCount(id, events[i]) == None {
      assert CarriedCount(id, all[j + 1]) == Some(count);
    } else {
      assert forall i | 0 < i < |all| :: CarriedCount(id, all[i]) == None;
      if CarriedCount(id, e).Some? { assert CarriedCount(id, all[0]) == Some(count); }
    }
  }

  lemma TurnCounts(b: Budget, id: Id, l: Loop, e: Event)
    requires Turn(b, id, l, e).0 != Some(Raised)
    ensures Turn(b, id, l, e).1.count
         == if CarriedCount(id, e).Some? then CarriedCount(id, e).value else l.count
  {
  }

  lemma {:induction false} IopubCounts(b: Budget, id: Id, l: Loop, trace: seq<Event>)
    ensures var (exit, l') := Iopub(b, id, l, trace);
            exit != Raised ==> LastCarried(id, trace[..Consumed(id, l.failures, trace)], l.count, l'.count)
    decreases |trace|
  {
    if trace != [] {
      var n := Consumed(id, l.failures, trace);
      var (exit, l1) := Turn(b, id, l, trace[0]);
      TurnShape(b, id, l, trace[0]);
      if exit != Some(Raised) {
        TurnCounts(b, id, l, trace[0]);
        assert trace[..n] == [trace[0]] + trace[1..][..n - 1];
        if exit.None? { IopubCounts(b, id, l1, trace[1..]); }
        var (exit', l') := Iopub(b, id, l, trace);
        if exit' != Raised { LastCarriedCons(id, trace[0], trace[1..][..n - 1], l.count, l'.count); }
      }
    }
  }

  /** Reply `j` is the first of this execution, and no silence comes before it. */
  predicate FirstReply(id: Id, replies: seq<Reply>, j: nat) {
    && j < |replies| && replies[j].Reply? && replies[j].parent == id
    && forall i | 0 <= i < j :: replies[i].Reply? && replies[i].parent != id
  }

  lemma {:induction false} ShellFinds(id: Id, replies: seq<Reply>, j: nat)
    requires FirstReply(id, replies, j)
    ensures Shell(id, replies) == Some(replies[j])
    decreases |replies|
  {
    if j > 0 {
      assert forall i | 0 < i < |replies| :: replies[1..][i - 1] == replies[i];
      ShellFinds(id, replies[1..], j - 1);
    }
  }

  lemma {:induction false} ShellFound(id: Id, replies: seq<Reply>) returns (j: nat)
    requires Shell(id, replies).Some?
    ensures FirstReply(id, replies, j)
    decreases |replies|
  {
    if replies[0].parent == id {
      j := 0;
    } else {
      j := ShellFound(id, replies[1..]);
      j := j + 1;
      assert forall i | 0 < i < |replies| :: replies[1..][i - 1] == replies[i];
    }
  }

  /** The count is that of the first matching reply, if there is one and it has a count; otherwise, and
      after a timeout, it is the last one that an own input or result read carried, or else 0. */
  lemma CountExactly(b: Budget, id: Id, trace: seq<Event>, replies: seq<Reply>)
    requires DrainExecution(b, id, trace, replies).Drained?
    ensures var r := DrainExecution(b, id, trace, replies);
            && (!r.timedOut ==> forall j: nat | FirstReply(id, replies, j) && replies[j].count.Some? ::
                  r.count == replies[j].count.value)
            && (r.timedOut || (forall j: nat | FirstReply(id, replies, j) :: replies[j].count == None) ==>
                  LastCarried(id, EventsRead(id, trace), Int(0), r.count))
  {
    IopubCounts(b, id, FRESH, trace);
    forall j: nat | FirstReply(id, replies, j) ensures Shell(id, replies) == Some(replies[j]) {
      ShellFinds(id, replies, j);
    }
    if Shell(id, replies).Some? {
      var j := ShellFound(id, replies);
      ShellFinds(id, replies, j);
    }
  }
}
