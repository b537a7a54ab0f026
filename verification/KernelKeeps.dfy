/** As much of every message is kept as the budgets admit, and no more. */
module KernelKeeps {
  import opened Prelude
  import opened Text
  import opened Json
  import opened CellJson
  import opened KernelDrain
  import opened KernelFit
  import opened KernelLoops

  predicate Admitted(b: Budget, outputs: seq<Json>, m: Maker, text: Text, limit: Option<nat>) {
    Fits(b, outputs, Make(m, text)) && (limit.Some? ==> Size(text) <= limit.value)
  }

  /** `kept` is the longest prefix of `text` that is admitted; it is empty if no other is. */
  ghost predicate Longest(
    b: Budget, outputs: seq<Json>, m: Maker, text: Text, limit: Option<nat>, kept: Text)
  {
    && kept <= text
    && (kept != [] ==> Admitted(b, outputs, m, kept, limit))
    && forall n | |kept| < n <= |text| :: !Admitted(b, outputs, m, text[..n], limit)
  }

  lemma FitTextKeepsLongest(b: Budget, outputs: seq<Json>, m: Maker, text: Text, limit: Option<nat>)
    requires FitText(b, outputs, m, text, limit).Some?
    ensures var (kept, cut) := FitText(b, outputs, m, text, limit).value;
            Longest(b, outputs, m, text, limit, kept)
            && (cut <==> kept != text || !Fits(b, outputs, Make(m, text)))
  {
    FitTextIsLongest(b, outputs, m, text, limit);
    var (kept, cut) := FitText(b, outputs, m, text, limit).value;
    forall n | |kept| < n <= |text| ensures !Admitted(b, outputs, m, text[..n], limit) {
      if Admitted(b, outputs, m, text[..n], limit) {
        assert text[..n][..|kept| + 1] == text[..|kept| + 1];
        SizeOfPrefix(text[..n], |kept| + 1);
        PrefixFits(b, outputs, m, text[..|kept| + 1], text[..n]);
      }
    }
  }

  /** There is a place for one more output, and it fits. */
  predicate Place(b: Budget, outputs: seq<Json>, output: Json) { |outputs| < b.items && Fits(b, outputs, output) }

  /** Of a stream's text the longest prefix that fits is kept, and nothing only if there is no place. */
  lemma StreamKeeps(b: Budget, k: Kept, name: Text, text: Text) returns (kept: Text)
    ensures Longest(b, k.outputs, StreamText(name), text, None, kept)
    ensures var outputs := AppendStream(b, k, name, text).outputs;
            if (kept != [] || text == []) && Place(b, k.outputs, StreamJson(name, kept))
            then outputs == k.outputs + [StreamJson(name, kept)]
            else outputs == k.outputs && (|k.outputs| < b.items ==> kept == [])
  {
    FitTextIsLongest(b, k.outputs, StreamText(name), text, None);
    FitTextKeepsLongest(b, k.outputs, StreamText(name), text, None);
    kept := FitText(b, k.outputs, StreamText(name), text, None).value.0;
  }

  /** A bundle is kept whole if there is a place for it; otherwise a placeholder is, with the longest
      prefix of its reason that fits, if there is a place for that. */
  lemma BundleKeeps(b: Budget, k: Kept, kind: BundleKind, data: Json, metadata: Json, count: Json)
    returns (reason: Text)
    ensures Longest(b, k.outputs, DropReason, DropText(kind), Some(MAX_FIELD_BYTES - 11), reason)
    ensures var outputs := AppendBundle(b, k, kind, data, metadata, count).outputs;
            var whole, dropped := BundleJson(kind, data, metadata, count), Make(DropReason, reason);
            if Place(b, k.outputs, whole) then outputs == k.outputs + [whole]
            else if Place(b, k.outputs, dropped) then outputs == k.outputs + [dropped]
            else outputs == k.outputs
  {
    DropTextEncodable(kind);
    var limit := MAX_FIELD_BYTES - 11;
    FitTextIsLongest(b, k.outputs, DropReason, DropText(kind), Some(limit));
    FitTextKeepsLongest(b, k.outputs, DropReason, DropText(kind), Some(limit));
    reason := FitText(b, k.outputs, DropReason, DropText(kind), Some(limit)).value.0;
  }

  /** `frames` goes on after `kept` with the stripped frames of `raw` in order: each is kept whole if
      possible, the first that is not is cut to the longest prefix that fits, and the rest are dropped. */
  ghost predicate KeepsFrames(
    b: Budget, outputs: seq<Json>, n: Text, e: Text, kept: seq<Text>, raw: seq<Text>, frames: seq<Text>)
    decreases |raw|
  {
    if raw == [] then frames == kept
    else
      var frame := StripAnsi(raw[0]);
      if Admitted(b, outputs, Frame(n, e, kept), frame, FieldLimit()) then
        KeepsFrames(b, outputs, n, e, kept + [frame], raw[1..], frames)
      else
        exists cut: Text ::
          Longest(b, outputs, Frame(n, e, kept), frame, FieldLimit(), cut)
          && frames == if cut == [] && frame != [] then kept else kept + [cut]
  }

  lemma {:induction false} FitFramesKeeps(
    b: Budget, outputs: seq<Json>, n: Text, e: Text, kept: seq<Text>, raw: seq<Text>)
    requires FitFrames(b, outputs, n, e, kept, raw).Some?
    ensures KeepsFrames(b, outputs, n, e, kept, raw, FitFrames(b, outputs, n, e, kept, raw).value.0)
    decreases |raw|
  {
    if raw != [] {
      var frame := StripAnsi(raw[0]);
      FitTextIsLongest(b, outputs, Frame(n, e, kept), frame, FieldLimit());
      FitTextKeepsLongest(b, outputs, Frame(n, e, kept), frame, FieldLimit());
      var (fitted, cut) := FitText(b, outputs, Frame(n, e, kept), frame, FieldLimit()).value;
      if !cut { FitFramesKeeps(b, outputs, n, e, kept + [frame], raw[1..]); }
    }
  }

  /** Of an error's name, and then of its value, the longest prefix that fits is kept, and then as many of
      its frames as fit; the whole is kept if there is a place for it. */
  lemma ErrorKeeps(b: Budget, k: Kept, ename: Text, evalue: Text, raw: seq<Text>)
    returns (n: Text, e: Text, frames: seq<Text>)
    requires AppendError(b, k, ename, evalue, raw).Some?
    ensures Longest(b, k.outputs, Ename, ename, FieldLimit(), n)
    ensures Longest(b, k.outputs, Evalue(n), evalue, FieldLimit(), e)
    ensures KeepsFrames(b, k.outputs, n, e, [], raw, frames)
    ensures AppendError(b, k, ename, evalue, raw).value.outputs
         == if Place(b, k.outputs, ErrorJson(n, e, frames)) then k.outputs + [ErrorJson(n, e, frames)] else k.outputs
  {
    FitTextKeepsLongest(b, k.outputs, Ename, ename, FieldLimit());
    n := FitText(b, k.outputs, Ename, ename, FieldLimit()).value.0;
    FitTextKeepsLongest(b, k.outputs, Evalue(n), evalue, FieldLimit());
    e := FitText(b, k.outputs, Evalue(n), evalue, FieldLimit()).value.0;
    FitFramesKeeps(b, k.outputs, n, e, [], raw);
    frames := FitFrames(b, k.outputs, n, e, [], raw).value.0;
  }
}
