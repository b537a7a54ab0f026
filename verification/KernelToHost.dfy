/** What the kernel's drain prints is what the host decodes. */
module KernelToHost {
  import opened Prelude
  import opened Text
  import opened Json
  import opened CellJson
  import opened KernelDrain
  import opened KernelTheorems
  import opened HostDecode

  // ---------------------------------------------------------------- the decoder is exact

  predicate ValidOutput(o: CellOutput) {
    match o
    case StreamOutput(name, _) => name == Lit("stdout") || name == Lit("stderr")
    case BundleOutput(_, data, metadata, count) => data.Obj? && metadata.Obj? && (count.Some? ==> count.value >= 0)
    case ErrorOutput(_, _, _) => true
  }

  function CountJson(count: Option<int>): Json { if count.Some? then Int(count.value) else Null }

  /** The dictionary of an output. */
  function EncodeOutput(o: CellOutput): Json {
    match o
    case StreamOutput(name, text) => StreamJson(name, text)
    case BundleOutput(kind, data, metadata, count) => BundleJson(kind, data, metadata, CountJson(count))
    case ErrorOutput(ename, evalue, traceback) => ErrorJson(ename, evalue, traceback)
  }

  /** The object `v` carries the fields of `o`; an absent execution count is a null one. */
  ghost predicate Carries(v: Json, o: CellOutput) {
    && v.Obj?
    && match o
       case StreamOutput(name, text) =>
         && Field(v, "output_type") == Some(Str(Lit("stream")))
         && Field(v, "name") == Some(Str(name)) && Field(v, "text") == Some(Str(text))
       case BundleOutput(kind, data, metadata, count) =>
         && Field(v, "output_type") == Some(Str(KindText(kind)))
         && Field(v, "data") == Some(data) && Field(v, "metadata") == Some(metadata)
         && (Field(v, "execution_count") == Some(CountJson(count))
             || (count.None? && Field(v, "execution_count").None?))
       case ErrorOutput(ename, evalue, traceback) =>
         && Field(v, "output_type") == Some(Str(Lit("error")))
         && Field(v, "ename") == Some(Str(ename)) && Field(v, "evalue") == Some(Str(evalue))
         && Field(v, "traceback") == Some(Arr(Strs(traceback)))
  }

  lemma {:induction false} TextsExactly(items: seq<Json>, lines: seq<Text>)
    ensures Texts(items) == Some(lines) <==> items == Strs(lines)
  {
    assert |Strs(lines)| == |lines|;
    if items != [] && !items[0].Str? {
      if lines != [] { assert Strs(lines)[0].Str?; }
    } else if items != [] && lines != [] {
      TextsExactly(items[1..], lines[1..]);
      assert lines == [lines[0]] + lines[1..];
      assert Strs(lines)[1..] == Strs(lines[1..]);
      assert items == [items[0]] + items[1..];
      if Texts(items).Some? { assert Texts(items).value[1..] == Texts(items[1..]).value; }
    }
  }

  lemma OutputTypesDiffer()
    ensures |Lit("stream")| == 6 && |Lit("execute_result")| == 14 && |Lit("display_data")| == 12 && |Lit("error")| == 5
  {
  }

  /** An output is accepted as `o` exactly if `o` is valid and the object carries it: nothing malformed
      is accepted, and nothing is reinterpreted. */
  lemma DecodeOutputExactly(v: Json, o: CellOutput)
    ensures DecodeOutput(v) == Ok(o) <==> ValidOutput(o) && Carries(v, o)
  {
    OutputTypesDiffer();
    if v.Obj? && o.ErrorOutput? && Field(v, "traceback").Some? && Field(v, "traceback").value.Arr? {
      TextsExactly(Field(v, "traceback").value.items, o.traceback);
    }
  }

  lemma {:induction false} GetAt(entries: seq<Entry>, i: nat)
    requires i < |entries| && forall j | i < j < |entries| :: entries[j].key != entries[i].key
    ensures Get(entries, entries[i].key) == Some(entries[i].value)
  {
    if i < |entries| - 1 {
      GetAt(entries[..|entries| - 1], i);
    }
  }

  lemma StreamKeys(name: Text, text: Text)
    ensures var v := StreamJson(name, text);
            && Field(v, "output_type") == Some(Str(Lit("stream")))
            && Field(v, "name") == Some(Str(name)) && Field(v, "text") == Some(Str(text))
  {
    var entries := StreamJson(name, text).entries;
    assert Lit("name")[0] != Lit("text")[0];
    GetAt(entries, 0);
    GetAt(entries, 1);
    GetAt(entries, 2);
  }

  lemma BundleKeys(kind: BundleKind, data: Json, metadata: Json, count: Json)
    ensures var v := BundleJson(kind, data, metadata, count);
            && Field(v, "output_type") == Some(Str(KindText(kind)))
            && Field(v, "data") == Some(data) && Field(v, "metadata") == Some(metadata)
            && Field(v, "execution_count") == Some(count)
  {
    var entries := BundleJson(kind, data, metadata, count).entries;
    GetAt(entries, 0);
    GetAt(entries, 1);
    GetAt(entries, 2);
    GetAt(entries, 3);
  }

  lemma ErrorKeys(ename: Text, evalue: Text, traceback: seq<Text>)
    ensures var v := ErrorJson(ename, evalue, traceback);
            && Field(v, "output_type") == Some(Str(Lit("error")))
            && Field(v, "ename") == Some(Str(ename)) && Field(v, "evalue") == Some(Str(evalue))
            && Field(v, "traceback") == Some(Arr(Strs(traceback)))
  {
    var entries := ErrorJson(ename, evalue, traceback).entries;
    GetAt(entries, 0);
    GetAt(entries, 1);
    GetAt(entries, 2);
    GetAt(entries, 3);
  }

  /** A valid output survives being encoded and decoded. */
  lemma OutputRoundTrip(o: CellOutput)
    requires ValidOutput(o)
    ensures DecodeOutput(EncodeOutput(o)) == Ok(o)
  {
    match o
    case StreamOutput(name, text) => StreamKeys(name, text);
    case BundleOutput(kind, data, metadata, count) => BundleKeys(kind, data, metadata, CountJson(count));
    case ErrorOutput(ename, evalue, traceback) => ErrorKeys(ename, evalue, traceback);
    DecodeOutputExactly(EncodeOutput(o), o);
  }

  /** The list form: `outputs` are the dictionaries of `decoded`, in order. */
  ghost predicate Encodes(outputs: seq<Json>, decoded: seq<CellOutput>) {
    && |outputs| == |decoded|
    && forall i | 0 <= i < |outputs| :: ValidOutput(decoded[i]) && outputs[i] == EncodeOutput(decoded[i])
  }

  lemma {:induction false} OutputsRoundTrip(outputs: seq<Json>, decoded: seq<CellOutput>)
    requires Encodes(outputs, decoded)
    ensures DecodeOutputs(outputs) == Ok(decoded)
  {
    if outputs != [] {
      OutputRoundTrip(decoded[0]);
      OutputsRoundTrip(outputs[1..], decoded[1..]);
      assert decoded == [decoded[0]] + decoded[1..];
    }
  }

  /** Each item of a list is accepted, in order. */
  lemma {:induction false} DecodeOutputsExactly(items: seq<Json>, decoded: seq<CellOutput>)
    ensures DecodeOutputs(items) == Ok(decoded)
       <==> |items| == |decoded|
            && forall i | 0 <= i < |items| :: ValidOutput(decoded[i]) && Carries(items[i], decoded[i])
  {
    if items != [] && decoded != [] {
      DecodeOutputExactly(items[0], decoded[0]);
      DecodeOutputsExactly(items[1..], decoded[1..]);
      assert decoded == [decoded[0]] + decoded[1..];
      assert forall i | 0 < i < |items| :: items[i] == items[1..][i - 1];
      if |items| == |decoded| {
        assert forall i | 0 < i < |decoded| :: decoded[i] == decoded[1..][i - 1];
      }
    }
  }

  /** The object `v` carries the fields of `r`, all of them valid. */
  ghost predicate CarriesResult(v: Json, r: CellResult) {
    && v.Obj? && !r.sessionInvalidated && r.executionCount >= 0
    && Field(v, "status") == Some(Str(Lit(if r.ok then "ok" else "error")))
    && Field(v, "execution_count") == Some(Int(r.executionCount))
    && Field(v, "timed_out") == Some(Bool(r.timedOut)) && Field(v, "truncated") == Some(Bool(r.truncated))
    && Field(v, "outputs").Some? && Field(v, "outputs").value.Arr?
    && var items := Field(v, "outputs").value.items;
       |items| == |r.outputs|
       && forall i | 0 <= i < |items| :: ValidOutput(r.outputs[i]) && Carries(items[i], r.outputs[i])
  }

  /** A response is accepted as `r` exactly if it carries the fields of `r`, all of them valid. */
  lemma DecodeResultExactly(v: Json, r: CellResult)
    ensures DecodeResult(v) == Ok(r) <==> CarriesResult(v, r)
  {
    assert |Lit("ok")| == 2 && |Lit("error")| == 5;
    if v.Obj? && Field(v, "outputs").Some? && Field(v, "outputs").value.Arr? {
      DecodeOutputsExactly(Field(v, "outputs").value.items, r.outputs);
    }
  }

  lemma ResultKeys(ok: bool, outputs: seq<Json>, count: Json, timedOut: bool, truncated: bool)
    ensures var v := ResultJson(ok, outputs, count, timedOut, truncated);
            && Field(v, "status") == Some(Str(Lit(if ok then "ok" else "error")))
            && Field(v, "outputs") == Some(Arr(outputs)) && Field(v, "execution_count") == Some(count)
            && Field(v, "timed_out") == Some(Bool(timedOut)) && Field(v, "truncated") == Some(Bool(truncated))
  {
    var entries := ResultJson(ok, outputs, count, timedOut, truncated).entries;
    assert Lit("timed_out")[1] != Lit("truncated")[1];
    GetAt(entries, 0);
    GetAt(entries, 1);
    GetAt(entries, 2);
    GetAt(entries, 3);
    GetAt(entries, 4);
  }

  lemma ResultRoundTrip(
    ok: bool, outputs: seq<Json>, n: int, timedOut: bool, truncated: bool, decoded: seq<CellOutput>)
    requires Encodes(outputs, decoded) && n >= 0
    ensures DecodeResult(ResultJson(ok, outputs, Int(n), timedOut, truncated))
         == Ok(CellResult(ok, decoded, n, timedOut, truncated, false))
  {
    ResultKeys(ok, outputs, Int(n), timedOut, truncated);
    OutputsRoundTrip(outputs, decoded);
    assert |Lit("ok")| == 2 && |Lit("error")| == 5;
  }

  // ---------------------------------------------------------------- what the drain produces

  predicate Counts(v: Option<Json>) { v.Some? ==> v.value.Int? && v.value.n >= 0 }

  /** Content as the kernel protocol specifies it. */
  predicate WellFormedContent(c: Content) {
    match c
    case Stream(name, _) => name.Some? ==> name.value == Lit("stdout") || name.value == Lit("stderr")
    case ExecuteInput(count) => Counts(count)
    case Bundle(kind, data, metadata, count) =>
      && OrEmpty(data).Obj? && OrEmpty(metadata).Obj?
      && (Counts(count) || (kind.DisplayData? && count == Some(Null)))
    case _ => true
  }

  predicate WellFormedTrace(id: Id, trace: seq<Event>) {
    forall e <- trace :: e.Message? && e.parent == id ==> WellFormedContent(e.content)
  }

  predicate WellFormedReplies(replies: seq<Reply>) {
    forall r <- replies :: r.Reply? ==> Counts(r.count)
  }

  lemma AbridgedDecodes(o: Json, c: Content) returns (x: CellOutput)
    requires WellFormedContent(c) && Abridges(o, c)
    ensures ValidOutput(x) && o == EncodeOutput(x)
  {
    match c
    case Stream(name, text) =>
      var t: Text :| t <= Or(text, []) && o == StreamJson(Or(name, Lit("stdout")), t);
      x := StreamOutput(Or(name, Lit("stdout")), t);
    case Bundle(kind, data, metadata, count) =>
      if Some(o) == FullOutput(c) {
        var n := Or(count, Null);
        x := BundleOutput(kind, OrEmpty(data), OrEmpty(metadata), if n.Int? then Some(n.n) else None);
      } else {
        var t: Text :| t <= DropText(kind) && o == ErrorJson(Lit("OutputDropped"), Dropped(t), []);
        x := ErrorOutput(Lit("OutputDropped"), Dropped(t), []);
      }
    case Error(ename, evalue, traceback) =>
      var n: Text, e: Text, frames: seq<Text> :| o == ErrorJson(n, e, frames)
        && n <= Or(ename, []) && e <= Or(evalue, []) && |frames| <= |traceback|
        && forall i | 0 <= i < |frames| :: frames[i] <= StripAnsi(traceback[i]);
      x := ErrorOutput(n, e, frames);
    case _ => assert false; x := StreamOutput(Lit("stdout"), []);
  }

  ghost predicate Decodable(l: Loop) {
    && l.count.Int? && l.count.n >= 0
    && exists decoded: seq<CellOutput> :: Encodes(l.kept.outputs, decoded)
  }

  lemma KeptDecodable(k: Kept, k': Kept, c: Content, decoded: seq<CellOutput>) returns (decoded': seq<CellOutput>)
    requires WellFormedContent(c) && Accounts(k, k', c) && Encodes(k.outputs, decoded)
    ensures Encodes(k'.outputs, decoded')
  {
    decoded' := decoded;
    if k'.outputs != k.outputs {
      var n := |k.outputs|;
      var x := AbridgedDecodes(k'.outputs[n], c);
      decoded' := decoded + [x];
      forall i | 0 <= i < n ensures k'.outputs[i] == k.outputs[i] {
        assert k'.outputs[..n][i] == k'.outputs[i];
      }
    }
  }

  lemma TurnDecodable(b: Budget, id: Id, l: Loop, e: Event)
    requires Decodable(l) && (e.Message? && e.parent == id ==> WellFormedContent(e.content))
    ensures Decodable(Turn(b, id, l, e).1)
  {
    if e.Message? && e.parent == id && e.content != Status(true) {
      var l1, c := l.(failures := 0), e.content;
      if Handle(b, l1, c).Some? {
        var l2 := Handle(b, l1, c).value;
        HandleAccounts(b, l1, c);
        var decoded: seq<CellOutput> :| Encodes(l.kept.outputs, decoded);
        if FullOutput(c).Some? {
          var decoded' := KeptDecodable(l.kept, l2.kept, c, decoded);
        }
      }
    }
  }

  lemma {:induction false} IopubDecodable(b: Budget, id: Id, l: Loop, trace: seq<Event>)
    requires Decodable(l) && WellFormedTrace(id, trace)
    ensures Decodable(Iopub(b, id, l, trace).1)
    decreases |trace|
  {
    if trace != [] {
      assert trace[0] in trace;
      TurnDecodable(b, id, l, trace[0]);
      var (exit, l1) := Turn(b, id, l, trace[0]);
      if exit.None? { IopubDecodable(b, id, l1, trace[1..]); }
    }
  }

  /** The payload the container prints for an outcome of the drain. */
  function Payload(d: Outcome): Json
    requires d.Drained?
  {
    ResultJson(d.ok, d.outputs, d.count, d.timedOut, d.truncated)
  }

  /** The result `r` says what the drain's outcome `d` says. */
  ghost predicate SameResult(r: CellResult, d: Outcome) {
    && d.Drained?
    && r.ok == d.ok && r.timedOut == d.timedOut && r.truncated == d.truncated
    && Int(r.executionCount) == d.count && Encodes(d.outputs, r.outputs)
  }

  /** For every trace of well-formed messages the host accepts what the drain returns, with the same
      status, flags, count and outputs in the same order, and does not call the session invalidated. */
  lemma KernelToHostRoundTrip(b: Budget, id: Id, trace: seq<Event>, replies: seq<Reply>)
    requires WellFormedTrace(id, trace) && WellFormedReplies(replies)
    requires DrainExecution(b, id, trace, replies).Drained?
    ensures var d := DrainExecution(b, id, trace, replies);
            var r := DecodeResult(Payload(d));
            r.Ok? && SameResult(r.value, d) && !r.value.sessionInvalidated
  {
    var d := DrainExecution(b, id, trace, replies);
    assert Encodes([], []);
    assert Decodable(FRESH);
    IopubDecodable(b, id, FRESH, trace);
    var decoded: seq<CellOutput> :| Encodes(d.outputs, decoded);
    CountDecodable(b, id, trace, replies);
    ResultRoundTrip(d.ok, d.outputs, d.count.n, d.timedOut, d.truncated, decoded);
  }

  lemma CountDecodable(b: Budget, id: Id, trace: seq<Event>, replies: seq<Reply>)
    requires WellFormedReplies(replies) && Decodable(Iopub(b, id, FRESH, trace).1)
    requires DrainExecution(b, id, trace, replies).Drained?
    ensures var d := DrainExecution(b, id, trace, replies); d.count.Int? && d.count.n >= 0
  {
    ShellIsReply(id, replies);
  }

  lemma {:induction false} ShellIsReply(id: Id, replies: seq<Reply>)
    ensures Shell(id, replies).Some? ==> Shell(id, replies).value in replies
    decreases |replies|
  {
    if replies != [] { ShellIsReply(id, replies[1..]); }
  }

  // ---------------------------------------------------------------- the printed size

  lemma {:induction false} EscapedBound(t: Text)
    ensures EscapedSize(t) <= 6 * |t|
  {
    if t != [] {
      EscapedBound(t[1..]);
    }
  }

  function Pow10(k: nat): nat { if k == 0 then 1 else 10 * Pow10(k - 1) }

  lemma {:induction false} DigitsBound(n: nat, k: nat)
    requires k > 0 && n < Pow10(k)
    ensures |Digits(n)| <= k
  {
    if n >= 10 {
      DigitsBound(n / 10, k - 1);
    }
  }

  lemma SixtyFourBits()
    ensures 0x8000_0000_0000_0000 <= Pow10(19)
  {
    assert Pow10(4) == 10000;
    assert Pow10(8) == 10000 * Pow10(4);
    assert Pow10(12) == 10000 * Pow10(8);
    assert Pow10(16) == 10000 * Pow10(12);
    assert Pow10(19) == 1000 * Pow10(16);
  }

  lemma WordSize(word: string)
    requires |word| <= 20 && forall i | 0 <= i < |word| :: word[i] <= '~'
    ensures JsonSize(Str(Lit(word))) <= 122 && Encodable(Lit(word))
  {
    EscapedBound(Lit(word));
    PlainLit(word);
  }

  lemma BoolSize(b: bool)
    ensures JsonSize(Bool(b)) <= 5
  {
    var text := Dumps(Bool(b));
    assert text == Lit(if b then "true" else "false");
    AsciiSize(text);
  }

  predicate ShortKey(key: Text) { |key| <= 20 && Encodable(key) }

  lemma KeySize(key: string)
    requires |key| <= 20 && forall i | 0 <= i < |key| :: key[i] <= '~'
    ensures ShortKey(Lit(key))
  {
    PlainLit(key);
  }

  lemma FiveEntries(k1: Text, a: Json, k2: Text, b: Json, k3: Text, c: Json, k4: Text, d: Json, k5: Text, e: Json)
    requires ShortKey(k1) && ShortKey(k2) && ShortKey(k3) && ShortKey(k4) && ShortKey(k5)
    ensures var v := Obj([Entry(k1, a), Entry(k2, b), Entry(k3, c), Entry(k4, d), Entry(k5, e)]);
            && JsonSize(v) <= 630 + JsonSize(a) + JsonSize(b) + JsonSize(c) + JsonSize(d) + JsonSize(e)
            && (JsonEncodable(v) <==> && JsonEncodable(a) && JsonEncodable(b) && JsonEncodable(c)
                                      && JsonEncodable(d) && JsonEncodable(e))
  {
    var x1, x2, x3, x4, x5 := Entry(k1, a), Entry(k2, b), Entry(k3, c), Entry(k4, d), Entry(k5, e);
    FourEntries(x1, x2, x3, x4);
    EntriesJoin([x1, x2, x3, x4], x5);
    assert [x1, x2, x3, x4] + [x5] == [x1, x2, x3, x4, x5];
    EscapedBound(k1);
    EscapedBound(k2);
    EscapedBound(k3);
    EscapedBound(k4);
    EscapedBound(k5);
  }

  lemma ResultKeysShort()
    ensures ShortKey(Lit("status")) && ShortKey(Lit("outputs")) && ShortKey(Lit("execution_count"))
    ensures ShortKey(Lit("timed_out")) && ShortKey(Lit("truncated"))
  {
    KeySize("status");
    KeySize("outputs");
    KeySize("execution_count");
    KeySize("timed_out");
    KeySize("truncated");
  }

  lemma ResultSize(ok: bool, outputs: seq<Json>, count: Json, timedOut: bool, truncated: bool)
    ensures JsonSize(ResultJson(ok, outputs, count, timedOut, truncated))
         <= 1000 + JsonSize(Arr(outputs)) + JsonSize(count)
    ensures JsonEncodable(ResultJson(ok, outputs, count, timedOut, truncated))
       <==> ItemsEncodable(outputs) && JsonEncodable(count)
  {
    ResultKeysShort();
    WordSize(if ok then "ok" else "error");
    ResultFieldsSize(Lit("status"), Lit(if ok then "ok" else "error"), Lit("outputs"), outputs,
                     Lit("execution_count"), count, Lit("timed_out"), timedOut, Lit("truncated"), truncated);
  }

  lemma ResultFieldsSize(k1: Text, word: Text, k2: Text, outputs: seq<Json>, k3: Text, count: Json,
                         k4: Text, b4: bool, k5: Text, b5: bool)
    requires ShortKey(k1) && ShortKey(k2) && ShortKey(k3) && ShortKey(k4) && ShortKey(k5)
    requires JsonSize(Str(word)) <= 122 && Encodable(word)
    ensures var v := Obj([Entry(k1, Str(word)), Entry(k2, Arr(outputs)), Entry(k3, count),
                          Entry(k4, Bool(b4)), Entry(k5, Bool(b5))]);
            && JsonSize(v) <= 1000 + JsonSize(Arr(outputs)) + JsonSize(count)
            && (JsonEncodable(v) <==> ItemsEncodable(outputs) && JsonEncodable(count))
  {
    FiveEntries(k1, Str(word), k2, Arr(outputs), k3, count, k4, Bool(b4), k5, Bool(b5));
    BoolSize(b4);
    BoolSize(b5);
  }

  lemma CountSize(n: int)
    requires 0 <= n < 0x8000_0000_0000_0000
    ensures JsonSize(Int(n)) <= 19
  {
    SixtyFourBits();
    DigitsBound(n, 19);
    DigitsPlain(n);
  }

  /** The outputs take the list's budget, and the rest of the response little more. */
  lemma PayloadSize(ok: bool, outputs: seq<Json>, n: int, timedOut: bool, truncated: bool)
    requires WithinBudget(DEFAULT_BUDGET, outputs) && 0 <= n < 0x8000_0000_0000_0000
    ensures var text := Dumps(ResultJson(ok, outputs, Int(n), timedOut, truncated));
            Encodable(text) && Size(text) <= MAX_TOTAL_BYTES + 1019 <= MAX_PAYLOAD_BYTES
  {
    CountSize(n);
    DumpsSize(Arr(outputs));
    DumpsSize(ResultJson(ok, outputs, Int(n), timedOut, truncated));
    ResultSize(ok, outputs, Int(n), timedOut, truncated);
  }

  /** With the default budgets and an execution count of 64 bits, the printed response encodes and is
      under the host's limit. */
  lemma ResponseUnderLimit(id: Id, trace: seq<Event>, replies: seq<Reply>)
    requires WellFormedTrace(id, trace) && WellFormedReplies(replies)
    requires DrainExecution(DEFAULT_BUDGET, id, trace, replies).Drained?
    requires var d := DrainExecution(DEFAULT_BUDGET, id, trace, replies);
             d.count.Int? && 0 <= d.count.n < 0x8000_0000_0000_0000
    ensures var text := Dumps(Payload(DrainExecution(DEFAULT_BUDGET, id, trace, replies)));
            Encodable(text) && Size(text) <= MAX_PAYLOAD_BYTES
  {
    var d := DrainExecution(DEFAULT_BUDGET, id, trace, replies);
    BudgetsHold(DEFAULT_BUDGET, id, trace, replies);
    PayloadSize(d.ok, d.outputs, d.count.n, d.timedOut, d.truncated);
  }

  /** From kernel messages to the cell result: for every trace the drain survives, the host returns
      what the drain saw, and the session is invalidated exactly if the cell timed out. */
  lemma CellEndToEnd(id: Id, trace: seq<Event>, replies: seq<Reply>)
    requires WellFormedTrace(id, trace) && WellFormedReplies(replies)
    requires DrainExecution(DEFAULT_BUDGET, id, trace, replies).Drained?
    requires var d := DrainExecution(DEFAULT_BUDGET, id, trace, replies);
             d.count.Int? ==> d.count.n < 0x8000_0000_0000_0000
    ensures var d := DrainExecution(DEFAULT_BUDGET, id, trace, replies);
            var r := ExecCell(Exited(0, Size(Dumps(Payload(d))), Some(Payload(d))));
            SameResult(r, d) && (r.sessionInvalidated <==> d.timedOut)
  {
    KernelToHostRoundTrip(DEFAULT_BUDGET, id, trace, replies);
    ResponseUnderLimit(id, trace, replies);
  }
}
