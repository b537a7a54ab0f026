/** When the drain raises instead of returning a result: error fields are cut by their bytes, which
    a lone surrogate does not have. */
module KernelRaises {
  import opened Prelude
  import opened Text
  import opened Json
  import opened CellJson
  import opened KernelDrain
  import opened KernelFit
  import opened KernelTheorems

  // ---------------------------------------------------------------- one traceback

  /** The frame is kept as it is after `before`: it is encodable, within the field limit, and fits. */
  predicate KeptWhole(b: Budget, outputs: seq<Json>, n: Text, e: Text, before: seq<Text>, frame: Text) {
    Encodable(frame) && Size(frame) <= MAX_FIELD_BYTES && Fits(b, outputs, ErrorJson(n, e, before + [frame]))
  }

  /** Frame `k` of `raw` has no UTF-8 form, and is reached: all frames before it are kept whole. */
  predicate RaisesAt(b: Budget, outputs: seq<Json>, n: Text, e: Text, kept: seq<Text>, raw: seq<Text>, k: nat)
    requires k < |raw|
  {
    && !Encodable(StripAnsi(raw[k]))
    && forall j | 0 <= j < k :: KeptWhole(b, outputs, n, e, kept + Stripped(raw[..j]), StripAnsi(raw[j]))
  }

  predicate FramesRaise(b: Budget, outputs: seq<Json>, n: Text, e: Text, kept: seq<Text>, raw: seq<Text>) {
    exists k: nat | k < |raw| :: RaisesAt(b, outputs, n, e, kept, raw, k)
  }

  lemma FrameKeptExactly(b: Budget, outputs: seq<Json>, n: Text, e: Text, before: seq<Text>, frame: Text)
    ensures var r := FitText(b, outputs, Frame(n, e, before), frame, FieldLimit());
            && (r.None? <==> !Encodable(frame))
            && (r.Some? ==> (!r.value.1 <==> KeptWhole(b, outputs, n, e, before, frame)))
            && (r.Some? && !r.value.1 ==> r.value.0 == frame)
  {
    FitTextIsLongest(b, outputs, Frame(n, e, before), frame, FieldLimit());
  }

  lemma RaisesAtCons(
    b: Budget, outputs: seq<Json>, n: Text, e: Text, kept: seq<Text>, raw: seq<Text>, k: nat)
    requires 0 < k < |raw|
    ensures var frame := StripAnsi(raw[0]);
            RaisesAt(b, outputs, n, e, kept, raw, k)
            <==> KeptWhole(b, outputs, n, e, kept, frame)
                 && RaisesAt(b, outputs, n, e, kept + [frame], raw[1..], k - 1)
  {
    var frame, rest := StripAnsi(raw[0]), raw[1..];
    assert kept + Stripped(raw[..0]) == kept;
    forall j | 0 <= j < k - 1 ensures kept + Stripped(raw[..j + 1]) == kept + [frame] + Stripped(rest[..j]) {
      StrippedStep(kept, raw[..j + 1]);
      assert raw[..j + 1][1..] == rest[..j];
    }
    if RaisesAt(b, outputs, n, e, kept, raw, k) {
      forall j | 0 <= j < k - 1
        ensures KeptWhole(b, outputs, n, e, kept + [frame] + Stripped(rest[..j]), StripAnsi(rest[j]))
      {
        assert KeptWhole(b, outputs, n, e, kept + Stripped(raw[..j + 1]), StripAnsi(raw[j + 1]));
      }
    }
    if KeptWhole(b, outputs, n, e, kept, frame) && RaisesAt(b, outputs, n, e, kept + [frame], rest, k - 1) {
      forall j | 0 <= j < k
        ensures KeptWhole(b, outputs, n, e, kept + Stripped(raw[..j]), StripAnsi(raw[j]))
      {
        if j > 0 {
          assert KeptWhole(b, outputs, n, e, kept + [frame] + Stripped(rest[..j - 1]), StripAnsi(rest[j - 1]));
        }
      }
    }
  }

  /** A traceback raises at its first frame, or at a later one if the first is kept whole. */
  lemma FramesRaiseCons(b: Budget, outputs: seq<Json>, n: Text, e: Text, kept: seq<Text>, raw: seq<Text>)
    requires raw != []
    ensures var frame := StripAnsi(raw[0]);
            FramesRaise(b, outputs, n, e, kept, raw)
            <==> !Encodable(frame)
                 || (KeptWhole(b, outputs, n, e, kept, frame)
                     && FramesRaise(b, outputs, n, e, kept + [frame], raw[1..]))
  {
    var frame := StripAnsi(raw[0]);
    if FramesRaise(b, outputs, n, e, kept, raw) {
      var k: nat :| k < |raw| && RaisesAt(b, outputs, n, e, kept, raw, k);
      if k > 0 { RaisesAtCons(b, outputs, n, e, kept, raw, k); }
    }
    if !Encodable(frame) {
      assert RaisesAt(b, outputs, n, e, kept, raw, 0);
    } else if KeptWhole(b, outputs, n, e, kept, frame) && FramesRaise(b, outputs, n, e, kept + [frame], raw[1..]) {
      var k: nat :| k < |raw[1..]| && RaisesAt(b, outputs, n, e, kept + [frame], raw[1..], k);
      RaisesAtCons(b, outputs, n, e, kept, raw, k + 1);
    }
  }

  /** The loop over a traceback raises if and only if it reaches a frame without a UTF-8 form. */
  lemma {:induction false} FramesRaiseExactly(
    b: Budget, outputs: seq<Json>, n: Text, e: Text, kept: seq<Text>, raw: seq<Text>)
    ensures FitFrames(b, outputs, n, e, kept, raw).None? <==> FramesRaise(b, outputs, n, e, kept, raw)
    decreases |raw|
  {
    if raw != [] {
      var frame := StripAnsi(raw[0]);
      FrameKeptExactly(b, outputs, n, e, kept, frame);
      FramesRaiseCons(b, outputs, n, e, kept, raw);
      FramesRaiseExactly(b, outputs, n, e, kept + [frame], raw[1..]);
    }
  }

  // ---------------------------------------------------------------- one message

  predicate NamesUnencodable(c: Content) {
    c.Error? && (!Encodable(Or(c.ename, [])) || !Encodable(Or(c.evalue, [])))
  }

  /** What is kept of an error's name or value. */
  function KeptText(b: Budget, outputs: seq<Json>, m: Maker, text: Text): Text {
    var fitted := FitText(b, outputs, m, text, FieldLimit());
    if fitted.Some? then fitted.value.0 else []
  }

  /** Handling the message raises, `outputs` having been kept before. */
  predicate Raises(b: Budget, outputs: seq<Json>, c: Content) {
    && c.Error?
    && (NamesUnencodable(c)
        || var n := KeptText(b, outputs, Ename, Or(c.ename, []));
           var e := KeptText(b, outputs, Evalue(n), Or(c.evalue, []));
           FramesRaise(b, outputs, n, e, [], c.traceback))
  }

  lemma HandleRaisesExactly(b: Budget, l: Loop, c: Content)
    ensures Handle(b, l, c).None? <==> Raises(b, l.kept.outputs, c)
  {
    if c.Error? {
      var outputs, ename, evalue := l.kept.outputs, Or(c.ename, []), Or(c.evalue, []);
      var n := KeptText(b, outputs, Ename, ename);
      var e := KeptText(b, outputs, Evalue(n), evalue);
      FitTextIsLongest(b, outputs, Ename, ename, FieldLimit());
      FitTextIsLongest(b, outputs, Evalue(n), evalue, FieldLimit());
      FramesRaiseExactly(b, outputs, n, e, [], c.traceback);
    }
  }

  // ---------------------------------------------------------------- the whole drain

  /** Event `i` is an own error that raises, and nothing before it does. */
  predicate RaisesAfter(b: Budget, id: Id, l: Loop, trace: seq<Event>, i: nat)
    requires i < |trace|
  {
    var (exit, before) := Iopub(b, id, l, trace[..i]);
    exit != Raised && OwnError(id, trace[i]) && Raises(b, before.kept.outputs, trace[i].content)
  }

  lemma RaisesAfterCons(b: Budget, id: Id, l: Loop, trace: seq<Event>, i: nat)
    requires 0 < i < |trace| && Turn(b, id, l, trace[0]).0 == None
    ensures RaisesAfter(b, id, l, trace, i) <==> RaisesAfter(b, id, Turn(b, id, l, trace[0]).1, trace[1..], i - 1)
  {
    assert trace[..i][1..] == trace[1..][..i - 1] && trace[..i][0] == trace[0];
  }

  lemma TurnRaisesExactly(b: Budget, id: Id, l: Loop, trace: seq<Event>)
    requires trace != []
    ensures Turn(b, id, l, trace[0]).0 == Some(Raised) <==> RaisesAfter(b, id, l, trace, 0)
  {
    assert trace[..0] == [];
    if trace[0].Message? { HandleRaisesExactly(b, l.(failures := 0), trace[0].content); }
  }

  lemma {:induction false} IopubRaisesExactly(b: Budget, id: Id, l: Loop, trace: seq<Event>)
    ensures Iopub(b, id, l, trace).0 == Raised
       <==> exists i: nat | i < Consumed(id, l.failures, trace) :: RaisesAfter(b, id, l, trace, i)
    decreases |trace|
  {
    if trace != [] {
      var n := Consumed(id, l.failures, trace);
      var (exit, l1) := Turn(b, id, l, trace[0]);
      TurnShape(b, id, l, trace[0]);
      TurnRaisesExactly(b, id, l, trace);
      if exit.None? {
        IopubRaisesExactly(b, id, l1, trace[1..]);
        assert n == 1 + Consumed(id, l1.failures, trace[1..]);
        if i: nat :| i < n && RaisesAfter(b, id, l, trace, i) {
          RaisesAfterCons(b, id, l, trace, i);
          assert RaisesAfter(b, id, l1, trace[1..], i - 1);
        }
        if i: nat :| i < n - 1 && RaisesAfter(b, id, l1, trace[1..], i) {
          RaisesAfterCons(b, id, l, trace, i + 1);
          assert RaisesAfter(b, id, l, trace, i + 1);
        }
      }
    }
  }

  /** The drain refuses exactly the bad budgets.  It raises exactly if some event it reads is an own
      error whose name or value has no UTF-8 form, or whose traceback reaches a frame that has none,
      with the outputs that the events before it leave. */
  lemma ResultExists(b: Budget, id: Id, trace: seq<Event>, replies: seq<Reply>)
    ensures var r := DrainExecution(b, id, trace, replies);
            && (r == BadBudget <==> b.total < 2 || b.item < 2 || b.items < 0)
            && (r == EncodeError <==>
                  exists i: nat | i < Consumed(id, 0, trace) ::
                    var before := DrainExecution(b, id, trace[..i], replies);
                    before.Drained? && OwnError(id, trace[i]) && Raises(b, before.outputs, trace[i].content))
  {
    IopubRaisesExactly(b, id, FRESH, trace);
    forall i: nat | i < Consumed(id, 0, trace)
      ensures b.Allowed() ==>
        (RaisesAfter(b, id, FRESH, trace, i) <==>
          var before := DrainExecution(b, id, trace[..i], replies);
          before.Drained? && OwnError(id, trace[i]) && Raises(b, before.outputs, trace[i].content))
    {
    }
  }

  // ---------------------------------------------------------------- when nothing has to be cut

  /** Some field of the error, or some frame of its traceback, has no UTF-8 form. */
  predicate Unencodable(c: Content) {
    NamesUnencodable(c) || (c.Error? && exists i | 0 <= i < |c.traceback| :: !Encodable(StripAnsi(c.traceback[i])))
  }

  /** The fields of an error are within the field limit; any other output has a UTF-8 form. */
  predicate WithinFields(c: Content) {
    if c.Error? then
      && Size(Or(c.ename, [])) <= MAX_FIELD_BYTES && Size(Or(c.evalue, [])) <= MAX_FIELD_BYTES
      && forall i | 0 <= i < |c.traceback| :: Size(StripAnsi(c.traceback[i])) <= MAX_FIELD_BYTES
    else
      FullOutput(c).Some? ==> JsonEncodable(FullOutput(c).value)
  }

  /** The outputs are within all three budgets by their sizes alone. */
  predicate Room(b: Budget, outputs: seq<Json>) {
    && |outputs| <= b.items
    && (forall i | 0 <= i < |outputs| :: JsonSize(outputs[i]) <= b.item)
    && JsonSize(Arr(outputs)) <= b.total
  }

  lemma {:induction false} ItemsPrefixSize(items: seq<Json>, k: nat)
    requires k <= |items|
    ensures ItemsSize(items[..k]) <= ItemsSize(items)
    decreases |items|
  {
    var n := |items| - 1;
    if k <= n {
      ItemsPrefixSize(items[..n], k);
      assert items[..n][..k] == items[..k];
    } else {
      assert items[..k] == items;
    }
  }

  lemma RoomPrefix(b: Budget, outputs: seq<Json>, more: seq<Json>)
    requires Room(b, outputs + more)
    ensures Room(b, outputs)
  {
    ItemsPrefixSize(outputs + more, |outputs|);
    assert (outputs + more)[..|outputs|] == outputs;
    forall i | 0 <= i < |outputs| ensures JsonSize(outputs[i]) <= b.item {
      assert (outputs + more)[i] == outputs[i];
    }
  }

  /** Where there is room for the whole, every smaller output with a UTF-8 form fits. */
  lemma PartFits(b: Budget, outputs: seq<Json>, part: Json, whole: Json)
    requires Room(b, outputs + [whole]) && ItemsEncodable(outputs)
    requires JsonSize(part) <= JsonSize(whole) && JsonEncodable(part)
    ensures Fits(b, outputs, part)
  {
    assert (outputs + [whole])[|outputs|] == whole;
    ItemsJoin(outputs, whole);
    FitsBySize(b, outputs, part);
  }

  /** There is room for the error, and each of its fields is within the field limit. */
  ghost predicate ErrorRoom(b: Budget, outputs: seq<Json>, ename: Text, evalue: Text, frames: seq<Text>) {
    && ItemsEncodable(outputs) && Room(b, outputs + [ErrorJson(ename, evalue, frames)])
    && Size(ename) <= MAX_FIELD_BYTES && Size(evalue) <= MAX_FIELD_BYTES
    && forall i | 0 <= i < |frames| :: Size(frames[i]) <= MAX_FIELD_BYTES
  }

  lemma NamesKept(b: Budget, outputs: seq<Json>, ename: Text, evalue: Text, frames: seq<Text>)
    requires ErrorRoom(b, outputs, ename, evalue, frames) && Encodable(ename) && Encodable(evalue)
    ensures FitText(b, outputs, Ename, ename, FieldLimit()) == Some((ename, false))
    ensures FitText(b, outputs, Evalue(ename), evalue, FieldLimit()) == Some((evalue, false))
  {
    NameSize(ename, evalue, frames);
    ValueSize(ename, evalue, frames);
    NameKept(b, outputs, Ename, ename, ErrorJson(ename, evalue, frames));
    NameKept(b, outputs, Evalue(ename), evalue, ErrorJson(ename, evalue, frames));
  }

  lemma NameKept(b: Budget, outputs: seq<Json>, m: Maker, text: Text, whole: Json)
    requires Room(b, outputs + [whole]) && ItemsEncodable(outputs)
    requires JsonSize(Make(m, text)) <= JsonSize(whole) && JsonEncodable(Make(m, text))
    requires Encodable(text) && Size(text) <= MAX_FIELD_BYTES
    ensures FitText(b, outputs, m, text, FieldLimit()) == Some((text, false))
  {
    PartFits(b, outputs, Make(m, text), whole);
    FitsUncut(b, outputs, m, text);
  }

  lemma NameSize(ename: Text, evalue: Text, frames: seq<Text>)
    ensures JsonSize(Make(Ename, ename)) <= JsonSize(ErrorJson(ename, evalue, frames))
    ensures Encodable(ename) ==> JsonEncodable(Make(Ename, ename))
  {
    PartSize(ename, [], evalue, frames);
  }

  lemma ValueSize(ename: Text, evalue: Text, frames: seq<Text>)
    ensures JsonSize(Make(Evalue(ename), evalue)) <= JsonSize(ErrorJson(ename, evalue, frames))
    ensures Encodable(ename) && Encodable(evalue) ==> JsonEncodable(Make(Evalue(ename), evalue))
  {
    assert Make(Evalue(ename), evalue) == ErrorJson(ename, evalue, []);
    PartSize(ename, evalue, evalue, frames);
  }

  lemma PartSize(ename: Text, part: Text, evalue: Text, frames: seq<Text>)
    requires part == [] || part == evalue
    ensures JsonSize(ErrorJson(ename, part, [])) <= JsonSize(ErrorJson(ename, evalue, frames))
    ensures Encodable(ename) && Encodable(part) ==> JsonEncodable(ErrorJson(ename, part, []))
  {
    ErrorSize(ename, part, []);
    ErrorSize(ename, evalue, frames);
  }

  lemma FitsUncut(b: Budget, outputs: seq<Json>, m: Maker, text: Text)
    requires Encodable(text) && Size(text) <= MAX_FIELD_BYTES && Fits(b, outputs, Make(m, text))
    ensures FitText(b, outputs, m, text, FieldLimit()) == Some((text, false))
  {
  }

  /** The frames before the first one without a UTF-8 form are all kept whole. */
  lemma FramesKept(b: Budget, outputs: seq<Json>, ename: Text, evalue: Text, frames: seq<Text>, j: nat)
    requires ErrorRoom(b, outputs, ename, evalue, frames) && Encodable(ename) && Encodable(evalue)
    requires j < |frames| && forall i | 0 <= i <= j :: Encodable(frames[i])
    ensures KeptWhole(b, outputs, ename, evalue, frames[..j], frames[j])
  {
    var part := frames[..j + 1];
    assert part == frames[..j] + [frames[j]];
    FramesSize(ename, evalue, frames, j + 1);
    PartFits(b, outputs, ErrorJson(ename, evalue, part), ErrorJson(ename, evalue, frames));
  }

  lemma FramesSize(ename: Text, evalue: Text, frames: seq<Text>, k: nat)
    requires k <= |frames| && Encodable(ename) && Encodable(evalue) && forall i | 0 <= i < k :: Encodable(frames[i])
    ensures JsonSize(ErrorJson(ename, evalue, frames[..k])) <= JsonSize(ErrorJson(ename, evalue, frames))
    ensures JsonEncodable(ErrorJson(ename, evalue, frames[..k]))
  {
    assert Strs(frames)[..k] == Strs(frames[..k]);
    ItemsPrefixSize(Strs(frames), k);
    StrsEncodable(frames[..k]);
    ErrorSize(ename, evalue, frames[..k]);
    ErrorSize(ename, evalue, frames);
  }

  predicate AllKept(b: Budget, outputs: seq<Json>, n: Text, e: Text, kept: seq<Text>, raw: seq<Text>) {
    forall j | 0 <= j < |raw| :: KeptWhole(b, outputs, n, e, kept + Stripped(raw[..j]), StripAnsi(raw[j]))
  }

  lemma AllKeptCons(b: Budget, outputs: seq<Json>, n: Text, e: Text, kept: seq<Text>, raw: seq<Text>)
    requires raw != [] && AllKept(b, outputs, n, e, kept, raw)
    ensures KeptWhole(b, outputs, n, e, kept, StripAnsi(raw[0]))
    ensures AllKept(b, outputs, n, e, kept + [StripAnsi(raw[0])], raw[1..])
  {
    var frame, rest := StripAnsi(raw[0]), raw[1..];
    assert kept + Stripped(raw[..0]) == kept;
    forall j | 0 <= j < |rest|
      ensures KeptWhole(b, outputs, n, e, kept + [frame] + Stripped(rest[..j]), StripAnsi(rest[j]))
    {
      StrippedStep(kept, raw[..j + 1]);
      assert raw[..j + 1][1..] == rest[..j];
      assert KeptWhole(b, outputs, n, e, kept + Stripped(raw[..j + 1]), StripAnsi(raw[j + 1]));
    }
  }

  lemma {:induction false} AllFramesKept(
    b: Budget, outputs: seq<Json>, n: Text, e: Text, kept: seq<Text>, raw: seq<Text>)
    requires AllKept(b, outputs, n, e, kept, raw)
    ensures FitFrames(b, outputs, n, e, kept, raw) == Some((kept + Stripped(raw), false))
    decreases |raw|
  {
    if raw == [] {
      assert kept + Stripped(raw) == kept;
    } else {
      AllKeptCons(b, outputs, n, e, kept, raw);
      FrameKeptExactly(b, outputs, n, e, kept, StripAnsi(raw[0]));
      AllFramesKept(b, outputs, n, e, kept + [StripAnsi(raw[0])], raw[1..]);
      StrippedStep(kept, raw);
    }
  }

  /** With room for the whole error, its traceback raises exactly if some frame has no UTF-8 form,
      and is kept as it is otherwise. */
  lemma RoomyFrames(b: Budget, outputs: seq<Json>, ename: Text, evalue: Text, raw: seq<Text>)
    requires ErrorRoom(b, outputs, ename, evalue, Stripped(raw)) && Encodable(ename) && Encodable(evalue)
    ensures var r := FitFrames(b, outputs, ename, evalue, [], raw);
            if exists i | 0 <= i < |raw| :: !Encodable(StripAnsi(raw[i])) then r.None?
            else r == Some((Stripped(raw), false))
  {
    var frames := Stripped(raw);
    forall j | 0 <= j < |raw| && forall i | 0 <= i <= j :: Encodable(StripAnsi(raw[i]))
      ensures KeptWhole(b, outputs, ename, evalue, [] + Stripped(raw[..j]), StripAnsi(raw[j]))
    {
      FramesKept(b, outputs, ename, evalue, frames, j);
      assert [] + Stripped(raw[..j]) == frames[..j];
    }
    if i :| 0 <= i < |raw| && !Encodable(StripAnsi(raw[i])) {
      var k := FirstUnencodable(raw, i);
      assert RaisesAt(b, outputs, ename, evalue, [], raw, k);
      FramesRaiseExactly(b, outputs, ename, evalue, [], raw);
    } else {
      AllFramesKept(b, outputs, ename, evalue, [], raw);
      assert [] + frames == frames;
    }
  }

  lemma {:induction false} FirstUnencodable(raw: seq<Text>, i: nat) returns (k: nat)
    requires i < |raw| && !Encodable(StripAnsi(raw[i]))
    ensures k <= i && !Encodable(StripAnsi(raw[k])) && forall j | 0 <= j < k :: Encodable(StripAnsi(raw[j]))
    decreases i
  {
    if j: nat :| j < i && !Encodable(StripAnsi(raw[j])) {
      k := FirstUnencodable(raw, j);
    } else {
      k := i;
    }
  }

  /** A message whose full output there is room for raises exactly if it is unencodable, and otherwise
      adds its full output. */
  lemma RoomyHandle(b: Budget, l: Loop, c: Content)
    requires FullOutput(c).Some? && WithinFields(c)
    requires Room(b, l.kept.outputs + [FullOutput(c).value]) && ItemsEncodable(l.kept.outputs)
    ensures if Unencodable(c) then Handle(b, l, c).None?
            else Handle(b, l, c).Some? && JsonEncodable(FullOutput(c).value)
                 && Handle(b, l, c).value.kept.outputs == l.kept.outputs + [FullOutput(c).value]
  {
    if c.Error? {
      RoomyError(b, l.kept, c);
    } else {
      PartFits(b, l.kept.outputs, FullOutput(c).value, FullOutput(c).value);
      if c.Stream? {
        StreamWhole(b, l.kept, Or(c.name, Lit("stdout")), Or(c.text, []));
      } else {
        BundleWhole(b, l.kept, c.kind, OrEmpty(c.data), OrEmpty(c.metadata), Or(c.count, Null));
      }
    }
  }

  lemma StreamWhole(b: Budget, k: Kept, name: Text, text: Text)
    requires |k.outputs| < b.items && Fits(b, k.outputs, StreamJson(name, text))
    ensures AppendStream(b, k, name, text).outputs == k.outputs + [StreamJson(name, text)]
  {
    assert Make(StreamText(name), text) == StreamJson(name, text);
  }

  lemma BundleWhole(b: Budget, k: Kept, kind: BundleKind, data: Json, metadata: Json, count: Json)
    requires |k.outputs| < b.items && Fits(b, k.outputs, BundleJson(kind, data, metadata, count))
    ensures AppendBundle(b, k, kind, data, metadata, count).outputs
         == k.outputs + [BundleJson(kind, data, metadata, count)]
  {
  }

  lemma RoomyError(b: Budget, k: Kept, c: Content)
    requires c.Error? && WithinFields(c)
    requires Room(b, k.outputs + [FullOutput(c).value]) && ItemsEncodable(k.outputs)
    ensures var r := AppendError(b, k, Or(c.ename, []), Or(c.evalue, []), c.traceback);
            if Unencodable(c) then r.None?
            else r.Some? && r.value.outputs == k.outputs + [FullOutput(c).value] && JsonEncodable(FullOutput(c).value)
  {
    var ename, evalue, frames := Or(c.ename, []), Or(c.evalue, []), Stripped(c.traceback);
    assert ErrorRoom(b, k.outputs, ename, evalue, frames);
    if NamesUnencodable(c) {
      HandleRaisesExactly(b, Loop(k, true, Null, 0), c);
    } else {
      NamesKept(b, k.outputs, ename, evalue, frames);
      RoomyFrames(b, k.outputs, ename, evalue, c.traceback);
      if !Unencodable(c) {
        StrsEncodable(frames);
        ErrorSize(ename, evalue, frames);
        PartFits(b, k.outputs, ErrorJson(ename, evalue, frames), ErrorJson(ename, evalue, frames));
      }
    }
  }

  predicate UnencodableError(id: Id, e: Event) { OwnError(id, e) && Unencodable(e.content) }

  predicate HasUnencodable(id: Id, events: seq<Event>) {
    exists i | 0 <= i < |events| :: UnencodableError(id, events[i])
  }

  lemma HasUnencodableCons(id: Id, events: seq<Event>)
    requires events != []
    ensures HasUnencodable(id, events) <==> UnencodableError(id, events[0]) || HasUnencodable(id, events[1..])
  {
    if i :| 0 <= i < |events| && UnencodableError(id, events[i]) {
      if i > 0 { assert events[1..][i - 1] == events[i]; }
    }
    if i :| 0 <= i < |events[1..]| && UnencodableError(id, events[1..][i]) {
      assert events[i + 1] == events[1..][i];
    }
  }

  predicate RoomyEvents(id: Id, events: seq<Event>) {
    forall i | 0 <= i < |events| && events[i].Message? && events[i].parent == id :: WithinFields(events[i].content)
  }

  lemma EventsTail(id: Id, trace: seq<Event>, n: nat)
    requires 0 < n <= |trace| && RoomyEvents(id, trace[..n])
    ensures trace[0].Message? && trace[0].parent == id ==> WithinFields(trace[0].content)
    ensures RoomyEvents(id, trace[1..][..n - 1])
    ensures HasUnencodable(id, trace[..n])
       <==> UnencodableError(id, trace[0]) || HasUnencodable(id, trace[1..][..n - 1])
    ensures n == 1 ==> !HasUnencodable(id, trace[1..][..n - 1])
  {
    assert trace[..n][0] == trace[0] && trace[..n][1..] == trace[1..][..n - 1];
    HasUnencodableCons(id, trace[..n]);
  }

  /** There is room for all that will be read. */
  predicate RoomyTrace(b: Budget, id: Id, l: Loop, trace: seq<Event>) {
    var read := trace[..Consumed(id, l.failures, trace)];
    ItemsEncodable(l.kept.outputs) && RoomyEvents(id, read) && Room(b, l.kept.outputs + Rendered(id, read))
  }

  predicate ReadsUnencodable(id: Id, failures: nat, trace: seq<Event>) {
    HasUnencodable(id, trace[..Consumed(id, failures, trace)])
  }

  lemma RoomyNext(b: Budget, id: Id, l: Loop, trace: seq<Event>)
    requires trace != [] && RoomyTrace(b, id, l, trace)
    ensures var (exit, l1) := Turn(b, id, l, trace[0]);
            && (exit == Some(Raised) ==> ReadsUnencodable(id, l.failures, trace))
            && (exit == Some(Idle) || exit == Some(Broken) ==> !ReadsUnencodable(id, l.failures, trace))
            && (exit == None ==>
                  && RoomyTrace(b, id, l1, trace[1..])
                  && (ReadsUnencodable(id, l.failures, trace) <==> ReadsUnencodable(id, l1.failures, trace[1..])))
  {
    var n := Consumed(id, l.failures, trace);
    TurnShape(b, id, l, trace[0]);
    RenderedCons(id, trace, n, l.kept.outputs);
    EventsTail(id, trace, n);
    RoomyTurn(b, id, l, trace[0], Rendered(id, trace[1..][..n - 1]));
  }

  lemma {:induction false} RoomyIopub(b: Budget, id: Id, l: Loop, trace: seq<Event>)
    requires RoomyTrace(b, id, l, trace)
    ensures Iopub(b, id, l, trace).0 == Raised <==> ReadsUnencodable(id, l.failures, trace)
    decreases |trace|
  {
    if trace != [] {
      RoomyNext(b, id, l, trace);
      TurnShape(b, id, l, trace[0]);
      var (exit, l1) := Turn(b, id, l, trace[0]);
      if exit.None? { RoomyIopub(b, id, l1, trace[1..]); }
    }
  }

  lemma RoomyTurn(b: Budget, id: Id, l: Loop, e: Event, rest: seq<Json>)
    requires ItemsEncodable(l.kept.outputs)
    requires e.Message? && e.parent == id ==> WithinFields(e.content)
    requires Room(b, l.kept.outputs + RenderedEvent(id, e) + rest)
    ensures var (exit, l1) := Turn(b, id, l, e);
            && (exit == Some(Raised) <==> UnencodableError(id, e))
            && (exit != Some(Raised) ==>
                  l1.kept.outputs == l.kept.outputs + RenderedEvent(id, e) && ItemsEncodable(l1.kept.outputs))
  {
    RoomPrefix(b, l.kept.outputs + RenderedEvent(id, e), rest);
    if RenderedEvent(id, e) == [] {
      assert l.kept.outputs + [] == l.kept.outputs;
    } else {
      RoomyMessage(b, id, l, e);
    }
  }

  lemma RoomyMessage(b: Budget, id: Id, l: Loop, e: Event)
    requires ItemsEncodable(l.kept.outputs) && e.Message? && e.parent == id && WithinFields(e.content)
    requires FullOutput(e.content).Some? && Room(b, l.kept.outputs + [FullOutput(e.content).value])
    ensures var (exit, l1) := Turn(b, id, l, e);
            if Unencodable(e.content) then exit == Some(Raised)
            else exit != Some(Raised) && l1.kept.outputs == l.kept.outputs + [FullOutput(e.content).value]
                 && ItemsEncodable(l1.kept.outputs)
  {
    RoomyHandle(b, l.(failures := 0), e.content);
    ItemsJoin(l.kept.outputs, FullOutput(e.content).value);
  }

  /** If the full rendering of what is read is within the budgets, and error fields are within theirs,
      the drain raises exactly if some own error read has a field or frame without a UTF-8 form. */
  lemma RoomyDrainRaisesExactly(b: Budget, id: Id, trace: seq<Event>, replies: seq<Reply>)
    requires b.Allowed()
    requires Room(b, Rendered(id, EventsRead(id, trace))) && RoomyEvents(id, EventsRead(id, trace))
    ensures DrainExecution(b, id, trace, replies) == EncodeError
       <==> HasUnencodable(id, EventsRead(id, trace))
  {
    var read := EventsRead(id, trace);
    assert [] + Rendered(id, read) == Rendered(id, read);
    RoomyIopub(b, id, FRESH, trace);
  }
}
