/** Shorter texts fit whenever longer ones do, so binary search finds the longest prefix that fits. */
module KernelFit {
  import opened Prelude
  import opened Text
  import opened Json
  import opened CellJson
  import opened KernelDrain

  /** `_fits` in terms of sizes that need no rendering. */
  lemma FitsBySize(b: Budget, outputs: seq<Json>, output: Json)
    ensures Fits(b, outputs, output)
       <==> && JsonEncodable(output) && JsonSize(output) <= b.item
            && ItemsEncodable(outputs)
            && 2 + (if outputs == [] then 0 else ItemsSize(outputs) + 2) + JsonSize(output) <= b.total
  {
    DumpsSize(output);
    DumpsSize(Arr(outputs + [output]));
    ItemsJoin(outputs, output);
  }

  /** An output that is no larger fits where a larger one does. */
  lemma FitsSmaller(b: Budget, outputs: seq<Json>, small: Json, large: Json)
    requires Fits(b, outputs, large) && JsonSize(small) <= JsonSize(large) && JsonEncodable(small)
    ensures Fits(b, outputs, small)
  {
    FitsBySize(b, outputs, small);
    FitsBySize(b, outputs, large);
  }

  /** Size of a made output: a fixed part and the escaped text. */
  lemma MakeSize(m: Maker, text: Text)
    ensures JsonSize(Make(m, text)) == JsonSize(Make(m, [])) + EscapedSize(text)
    ensures JsonEncodable(Make(m, text)) <==> JsonEncodable(Make(m, [])) && Encodable(text)
  {
    match m
    case StreamText(name) => StreamSize(name, text); StreamSize(name, []);
    case DropReason =>
      ErrorSize(Lit("OutputDropped"), Dropped(text), []);
      ErrorSize(Lit("OutputDropped"), Dropped([]), []);
      DroppedSize(text);
      DroppedSize([]);
    case Ename => ErrorSize(text, [], []); ErrorSize([], [], []);
    case Evalue(ename) => ErrorSize(ename, text, []); ErrorSize(ename, [], []);
    case Frame(ename, evalue, frames) =>
      ErrorSize(ename, evalue, frames + [text]);
      ErrorSize(ename, evalue, frames + [[]]);
      FrameSize(frames, text);
      FrameSize(frames, []);
  }

  lemma DroppedSize(reason: Text)
    ensures EscapedSize(Dropped(reason)) == EscapedSize(Lit("<dropped: ")) + EscapedSize(reason) + EscapedSize(Lit(">"))
    ensures Encodable(Dropped(reason)) <==> Encodable(reason)
  {
    EscapedConcat(Lit("<dropped: "), reason);
    EscapedConcat(Lit("<dropped: ") + reason, Lit(">"));
    EncodableConcat(Lit("<dropped: "), reason);
    EncodableConcat(Lit("<dropped: ") + reason, Lit(">"));
    PlainLit("<dropped: ");
    PlainLit(">");
  }

  /** If a text fits, so does each of its prefixes. */
  lemma PrefixFits(b: Budget, outputs: seq<Json>, m: Maker, small: Text, large: Text)
    requires small <= large && Fits(b, outputs, Make(m, large))
    ensures Fits(b, outputs, Make(m, small))
  {
    MakeSize(m, small);
    MakeSize(m, large);
    EscapedPrefix(small, large);
    FitsBySize(b, outputs, Make(m, large));
    FitsSmaller(b, outputs, Make(m, small), Make(m, large));
  }

  /** The longest prefix that fits is pinned down by fitting and by its successor not fitting. */
  lemma {:induction false} LongestFitUnique(
    b: Budget, outputs: seq<Json>, m: Maker, text: Text, n: nat, k: nat)
    requires k <= n <= |text|
    requires k == 0 || Fits(b, outputs, Make(m, text[..k]))
    requires k == n || !Fits(b, outputs, Make(m, text[..k + 1]))
    ensures LongestFit(b, outputs, m, text, n) == k
  {
    if n > k {
      if Fits(b, outputs, Make(m, text[..n])) {
        PrefixFits(b, outputs, m, text[..k + 1], text[..n]);
      }
      LongestFitUnique(b, outputs, m, text, n - 1, k);
    }
  }

  lemma {:induction false} LongestFitFits(b: Budget, outputs: seq<Json>, m: Maker, text: Text, n: nat)
    requires n <= |text|
    ensures var k := LongestFit(b, outputs, m, text, n);
            && (k == 0 || Fits(b, outputs, Make(m, text[..k])))
            && forall j | k < j <= n :: !Fits(b, outputs, Make(m, text[..j]))
  {
    if n > 0 && !Fits(b, outputs, Make(m, text[..n])) {
      LongestFitFits(b, outputs, m, text, n - 1);
    }
  }

  /** What `_fit_text` promises: a prefix of the capped text that fits unless empty, no longer prefix
      of which fits, and that is the whole text exactly when it is reported uncut or nothing was there. */
  lemma FitTextIsLongest(b: Budget, outputs: seq<Json>, m: Maker, text: Text, fieldLimit: Option<nat>)
    ensures FitText(b, outputs, m, text, fieldLimit).None? <==> fieldLimit.Some? && !Encodable(text)
    ensures FitText(b, outputs, m, text, fieldLimit).Some? ==>
              var (fitted, cut) := FitText(b, outputs, m, text, fieldLimit).value;
              && fitted <= text
              && (fitted != [] || !cut ==> Fits(b, outputs, Make(m, fitted)))
              && (fieldLimit.Some? ==> Size(fitted) <= fieldLimit.value)
              && (fitted != text ==>
                    || !Fits(b, outputs, Make(m, text[..|fitted| + 1]))
                    || (fieldLimit.Some? && Size(text[..|fitted| + 1]) > fieldLimit.value))
              && (!cut <==> fitted == text && Fits(b, outputs, Make(m, text)))
  {
    if fieldLimit.Some? { CapIsLongestPrefix(text, fieldLimit.value); }
    var capped := if fieldLimit.Some? then CapUtf8(text, fieldLimit.value) else Some((text, false));
    if capped.Some? {
      var (candidate, cut) := capped.value;
      LongestFitFits(b, outputs, m, candidate, |candidate|);
      assert candidate[..|candidate|] == candidate;
      var k := LongestFit(b, outputs, m, candidate, |candidate|);
      if !Fits(b, outputs, Make(m, candidate)) {
        assert candidate[..k] <= text;
        if fieldLimit.Some? { SizeOfPrefix(candidate, k); }
        if k < |candidate| { assert candidate[..k + 1] == text[..k + 1]; }
      }
    }
  }
}
