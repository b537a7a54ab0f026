/** The nbformat-shaped output dictionaries that cross from the kernel to the host. */
module CellJson {
  import opened Text
  import opened Json

  datatype BundleKind = ExecuteResult | DisplayData

  function KindText(kind: BundleKind): Text {
    if kind.ExecuteResult? then Lit("execute_result") else Lit("display_data")
  }

  function Strs(texts: seq<Text>): seq<Json> {
    seq(|texts|, i requires 0 <= i < |texts| => Str(texts[i]))
  }

  function StreamJson(name: Text, text: Text): Json {
    Obj([Entry(Lit("output_type"), Str(Lit("stream"))), Entry(Lit("name"), Str(name)), Entry(Lit("text"), Str(text))])
  }

  function BundleJson(kind: BundleKind, data: Json, metadata: Json, count: Json): Json {
    Obj([Entry(Lit("output_type"), Str(KindText(kind))), Entry(Lit("data"), data),
         Entry(Lit("metadata"), metadata), Entry(Lit("execution_count"), count)])
  }

  function ErrorJson(ename: Text, evalue: Text, traceback: seq<Text>): Json {
    Obj([Entry(Lit("output_type"), Str(Lit("error"))), Entry(Lit("ename"), Str(ename)),
         Entry(Lit("evalue"), Str(evalue)), Entry(Lit("traceback"), Arr(Strs(traceback)))])
  }

  /** The dictionary `drain_execution` returns. */
  function ResultJson(ok: bool, outputs: seq<Json>, count: Json, timedOut: bool, truncated: bool): Json {
    Obj([Entry(Lit("status"), Str(Lit(if ok then "ok" else "error"))), Entry(Lit("outputs"), Arr(outputs)),
         Entry(Lit("execution_count"), count), Entry(Lit("timed_out"), Bool(timedOut)),
         Entry(Lit("truncated"), Bool(truncated))])
  }

  // ---------------------------------------------------------------- sizes

  function EntrySize(e: Entry): nat { 4 + EscapedSize(e.key) + JsonSize(e.value) }

  predicate EntryEncodable(e: Entry) { Encodable(e.key) && JsonEncodable(e.value) }

  lemma EntriesJoin(entries: seq<Entry>, e: Entry)
    ensures EntriesSize(entries + [e]) == (if entries == [] then 0 else EntriesSize(entries) + 2) + EntrySize(e)
    ensures EntriesEncodable(entries + [e]) <==> EntriesEncodable(entries) && EntryEncodable(e)
  {
    assert (entries + [e])[..|entries|] == entries;
  }

  lemma ItemsJoin(items: seq<Json>, v: Json)
    ensures ItemsSize(items + [v]) == (if items == [] then 0 else ItemsSize(items) + 2) + JsonSize(v)
    ensures ItemsEncodable(items + [v]) <==> ItemsEncodable(items) && JsonEncodable(v)
  {
    assert (items + [v])[..|items|] == items;
  }

  lemma FourEntries(a: Entry, b: Entry, c: Entry, d: Entry)
    ensures EntriesSize([a, b, c]) == EntrySize(a) + EntrySize(b) + EntrySize(c) + 4
    ensures EntriesSize([a, b, c, d]) == EntriesSize([a, b, c]) + 2 + EntrySize(d)
    ensures EntriesEncodable([a, b, c]) <==> EntryEncodable(a) && EntryEncodable(b) && EntryEncodable(c)
    ensures EntriesEncodable([a, b, c, d]) <==> EntriesEncodable([a, b, c]) && EntryEncodable(d)
  {
    EntriesJoin([], a);
    assert [] + [a] == [a];
    EntriesJoin([a], b);
    assert [a] + [b] == [a, b];
    EntriesJoin([a, b], c);
    assert [a, b] + [c] == [a, b, c];
    EntriesJoin([a, b, c], d);
    assert [a, b, c] + [d] == [a, b, c, d];
  }

  lemma {:induction false} StrsEncodable(texts: seq<Text>)
    ensures ItemsEncodable(Strs(texts)) <==> forall i | 0 <= i < |texts| :: Encodable(texts[i])
  {
    if texts != [] {
      var n := |texts| - 1;
      assert Strs(texts)[..n] == Strs(texts[..n]);
      StrsEncodable(texts[..n]);
      assert JsonEncodable(Strs(texts)[n]) <==> Encodable(texts[n]);
      assert forall i | 0 <= i < n :: texts[..n][i] == texts[i];
    }
  }

  lemma PlainLit(s: string)
    requires forall i | 0 <= i < |s| :: s[i] <= '~'
    ensures Encodable(Lit(s))
  {
    forall i | 0 <= i < |Lit(s)| ensures !Surrogate(Lit(s)[i]) {
      assert Lit(s)[i] == s[i] as int;
    }
  }

  /** Objects with two free texts, after a fixed first field. */
  lemma ThirdFieldSize(k1: Text, t1: Text, k2: Text, t2: Text, k3: Text, t3: Text)
    requires Encodable(k1) && Encodable(t1) && Encodable(k2) && Encodable(k3)
    ensures var a, b := Entry(k1, Str(t1)), Entry(k2, Str(t2));
            && JsonSize(Obj([a, b, Entry(k3, Str(t3))])) == JsonSize(Obj([a, b, Entry(k3, Str([]))])) + EscapedSize(t3)
            && (JsonEncodable(Obj([a, b, Entry(k3, Str(t3))])) <==> Encodable(t2) && Encodable(t3))
  {
    var a, b := Entry(k1, Str(t1)), Entry(k2, Str(t2));
    FourEntries(a, b, Entry(k3, Str(t3)), a);
    FourEntries(a, b, Entry(k3, Str([])), a);
  }

  /** Objects with two free texts and a free list, after a fixed first field. */
  lemma LastFieldsSize(a: Entry, k1: Text, t1: Text, k2: Text, t2: Text, k3: Text, items: seq<Json>)
    ensures JsonSize(Obj([a, Entry(k1, Str(t1)), Entry(k2, Str(t2)), Entry(k3, Arr(items))]))
         == JsonSize(Obj([a, Entry(k1, Str([])), Entry(k2, Str([])), Entry(k3, Arr([]))]))
            + EscapedSize(t1) + EscapedSize(t2) + ItemsSize(items)
    ensures EntryEncodable(a) && Encodable(k1) && Encodable(k2) && Encodable(k3) ==>
      (JsonEncodable(Obj([a, Entry(k1, Str(t1)), Entry(k2, Str(t2)), Entry(k3, Arr(items))]))
       <==> Encodable(t1) && Encodable(t2) && ItemsEncodable(items))
  {
    var b, c, d := Entry(k1, Str(t1)), Entry(k2, Str(t2)), Entry(k3, Arr(items));
    FourEntries(a, b, c, d);
    FourEntries(a, Entry(k1, Str([])), Entry(k2, Str([])), Entry(k3, Arr([])));
    assert EntryEncodable(d) <==> Encodable(k3) && ItemsEncodable(items);
  }

  lemma StreamSize(name: Text, text: Text)
    ensures JsonSize(StreamJson(name, text)) == JsonSize(StreamJson(name, [])) + EscapedSize(text)
    ensures JsonEncodable(StreamJson(name, text)) <==> Encodable(name) && Encodable(text)
  {
    PlainLit("output_type");
    PlainLit("stream");
    PlainLit("name");
    PlainLit("text");
    ThirdFieldSize(Lit("output_type"), Lit("stream"), Lit("name"), name, Lit("text"), text);
  }

  lemma ErrorSize(ename: Text, evalue: Text, traceback: seq<Text>)
    ensures JsonSize(ErrorJson(ename, evalue, traceback))
         == JsonSize(ErrorJson([], [], [])) + EscapedSize(ename) + EscapedSize(evalue) + ItemsSize(Strs(traceback))
    ensures JsonEncodable(ErrorJson(ename, evalue, traceback))
       <==> Encodable(ename) && Encodable(evalue) && ItemsEncodable(Strs(traceback))
  {
    var type_ := Entry(Lit("output_type"), Str(Lit("error")));
    PlainLit("output_type");
    PlainLit("error");
    PlainLit("ename");
    PlainLit("evalue");
    PlainLit("traceback");
    assert EntryEncodable(type_);
    assert Strs([]) == [];
    LastFieldsSize(type_, Lit("ename"), ename, Lit("evalue"), evalue, Lit("traceback"), Strs(traceback));
  }

  lemma FrameSize(traceback: seq<Text>, frame: Text)
    ensures ItemsSize(Strs(traceback + [frame]))
         == (if traceback == [] then 0 else ItemsSize(Strs(traceback)) + 2) + 2 + EscapedSize(frame)
    ensures ItemsEncodable(Strs(traceback + [frame])) <==> ItemsEncodable(Strs(traceback)) && Encodable(frame)
  {
    assert Strs(traceback + [frame]) == Strs(traceback) + [Str(frame)];
    ItemsJoin(Strs(traceback), Str(frame));
  }
}
