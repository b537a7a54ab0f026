/** JSON values, the text `json.dumps(value, ensure_ascii=False)` gives, and its size in UTF-8 bytes. */
module Json {
  import opened Text

  /** Numbers that are not integers keep the text they are printed with. */
  datatype Json =
    | Null
    | Bool(b: bool)
    | Int(n: int)
    | Float(repr: Text)
    | Str(s: Text)
    | Arr(items: seq<Json>)
    | Obj(entries: seq<Entry>)

  datatype Entry = Entry(key: Text, value: Json)

  const QUOTE: Code := 34
  const BACKSLASH: Code := 92
  const ZERO: Code := 48
  const LETTER_B: Code := 98
  const LETTER_F: Code := 102
  const LETTER_N: Code := 110
  const LETTER_R: Code := 114
  const LETTER_T: Code := 116
  const LETTER_U: Code := 117

  function HexDigit(d: nat): Code
    requires d < 16
  {
    if d < 10 then 48 + d else 87 + d
  }

  /** String escapes: RFC 8259 section 7. */
  function EscapeCode(c: Code): Text {
    if c == QUOTE || c == BACKSLASH then [BACKSLASH, c]
    else if c == 10 then [BACKSLASH, LETTER_N]
    else if c == 13 then [BACKSLASH, LETTER_R]
    else if c == 9 then [BACKSLASH, LETTER_T]
    else if c == 8 then [BACKSLASH, LETTER_B]
    else if c == 12 then [BACKSLASH, LETTER_F]
    else if c < 0x20 then [BACKSLASH, LETTER_U, ZERO, ZERO, HexDigit(c / 16), HexDigit(c % 16)]
    else [c]
  }

  function Escape(t: Text): Text {
    if t == [] then [] else EscapeCode(t[0]) + Escape(t[1..])
  }

  function Quoted(t: Text): Text { [QUOTE] + Escape(t) + [QUOTE] }

  function Digits(n: nat): Text {
    if n < 10 then [48 + n] else Digits(n / 10) + [48 + n % 10]
  }

  function Decimal(n: int): Text { if n < 0 then [45] + Digits(-n) else Digits(n) }

  /** `json.dumps(value, ensure_ascii=False)` with its default separators. */
  function Dumps(v: Json): Text
    decreases v, 0
  {
    match v
    case Null => Lit("null")
    case Bool(b) => if b then Lit("true") else Lit("false")
    case Int(n) => Decimal(n)
    case Float(repr) => repr
    case Str(s) => Quoted(s)
    case Arr(items) => Lit("[") + DumpsItems(items) + Lit("]")
    case Obj(entries) => Lit("{") + DumpsEntries(entries) + Lit("}")
  }

  function DumpsItems(items: seq<Json>): Text
    decreases items, |items|
  {
    if items == [] then []
    else
      var n := |items| - 1;
      if n == 0 then Dumps(items[0]) else DumpsItems(items[..n]) + Lit(", ") + Dumps(items[n])
  }

  function DumpsEntry(key: Text, value: Text): Text { Quoted(key) + Lit(": ") + value }

  function DumpsEntries(entries: seq<Entry>): Text
    decreases entries, |entries|
  {
    if entries == [] then []
    else
      var n := |entries| - 1;
      var entry := DumpsEntry(entries[n].key, Dumps(entries[n].value));
      if n == 0 then entry else DumpsEntries(entries[..n]) + Lit(", ") + entry
  }

  // ---------------------------------------------------------------- size without rendering

  /** Bytes the escaped text takes. */
  function EscapedSize(t: Text): nat {
    if t == [] then 0 else EscapedWidth(t[0]) + EscapedSize(t[1..])
  }

  function EscapedWidth(c: Code): nat {
    if c == QUOTE || c == BACKSLASH || 8 <= c <= 10 || 12 <= c <= 13 then 2
    else if c < 0x20 then 6
    else Width(c)
  }

  function JsonSize(v: Json): nat
    decreases v, 0
  {
    match v
    case Str(s) => 2 + EscapedSize(s)
    case Arr(items) => 2 + ItemsSize(items)
    case Obj(entries) => 2 + EntriesSize(entries)
    case _ => Size(Dumps(v))
  }

  function ItemsSize(items: seq<Json>): nat
    decreases items, |items|
  {
    if items == [] then 0
    else
      var n := |items| - 1;
      if n == 0 then JsonSize(items[0]) else ItemsSize(items[..n]) + 2 + JsonSize(items[n])
  }

  function EntriesSize(entries: seq<Entry>): nat
    decreases entries, |entries|
  {
    if entries == [] then 0
    else
      var n := |entries| - 1;
      var entry := 4 + EscapedSize(entries[n].key) + JsonSize(entries[n].value);
      if n == 0 then entry else EntriesSize(entries[..n]) + 2 + entry
  }

  /** No lone surrogate anywhere in the value. */
  predicate JsonEncodable(v: Json)
    decreases v, 0
  {
    match v
    case Float(repr) => Encodable(repr)
    case Str(s) => Encodable(s)
    case Arr(items) => ItemsEncodable(items)
    case Obj(entries) => EntriesEncodable(entries)
    case _ => true
  }

  predicate ItemsEncodable(items: seq<Json>)
    decreases items, |items|
  {
    items == [] || (ItemsEncodable(items[..|items| - 1]) && JsonEncodable(items[|items| - 1]))
  }

  predicate EntriesEncodable(entries: seq<Entry>)
    decreases entries, |entries|
  {
    entries == []
    || (EntriesEncodable(entries[..|entries| - 1])
        && Encodable(entries[|entries| - 1].key) && JsonEncodable(entries[|entries| - 1].value))
  }

  // ---------------------------------------------------------------- the size is that of the rendering

  lemma EncodableConcat(a: Text, b: Text)
    ensures Encodable(a + b) <==> Encodable(a) && Encodable(b)
  {
    if Encodable(a + b) {
      assert forall i | 0 <= i < |a| :: (a + b)[i] == a[i];
      assert forall i | 0 <= i < |b| :: (a + b)[|a| + i] == b[i];
    }
  }

  lemma AddConcat(a: Text, b: Text)
    ensures Size(a + b) == Size(a) + Size(b)
    ensures Encodable(a + b) <==> Encodable(a) && Encodable(b)
  {
    SizeConcat(a, b);
    EncodableConcat(a, b);
  }

  lemma {:induction false} AsciiSize(t: Text)
    requires forall i | 0 <= i < |t| :: t[i] < 0x80
    ensures Size(t) == |t| && Encodable(t)
  {
    if t != [] { AsciiSize(t[1..]); }
  }

  lemma EscapeCodeSize(c: Code)
    ensures Size(EscapeCode(c)) == EscapedWidth(c)
    ensures Encodable(EscapeCode(c)) <==> !Surrogate(c)
  {
    if c < 0x80 {
      AsciiSize(EscapeCode(c));
    } else {
      assert EscapeCode(c)[0] == c && EscapeCode(c)[1..] == [];
    }
  }

  lemma {:induction false} EscapeSize(t: Text)
    ensures Size(Escape(t)) == EscapedSize(t)
    ensures Encodable(Escape(t)) <==> Encodable(t)
  {
    if t != [] {
      AddConcat(EscapeCode(t[0]), Escape(t[1..]));
      EscapeSize(t[1..]);
      EscapeCodeSize(t[0]);
      assert Encodable(t) <==> !Surrogate(t[0]) && Encodable(t[1..]) by {
        assert [t[0]] + t[1..] == t;
        EncodableConcat([t[0]], t[1..]);
        assert [t[0]][0] == t[0];
      }
    }
  }

  lemma QuotedSize(t: Text)
    ensures Size(Quoted(t)) == 2 + EscapedSize(t)
    ensures Encodable(Quoted(t)) <==> Encodable(t)
  {
    EscapeSize(t);
    AddConcat([QUOTE], Escape(t));
    AddConcat([QUOTE] + Escape(t), [QUOTE]);
  }

  lemma {:induction false} DigitsPlain(n: nat)
    ensures Encodable(Digits(n)) && Size(Digits(n)) == |Digits(n)|
  {
    if n >= 10 {
      DigitsPlain(n / 10);
      AddConcat(Digits(n / 10), [48 + n % 10]);
    }
  }

  lemma {:induction false} DumpsSize(v: Json)
    ensures Size(Dumps(v)) == JsonSize(v)
    ensures Encodable(Dumps(v)) <==> JsonEncodable(v)
    decreases v, 0
  {
    match v
    case Int(n) =>
      DigitsPlain(if n < 0 then -n else n);
      if n < 0 { AddConcat([45], Digits(-n)); }
    case Str(s) => QuotedSize(s);
    case Arr(items) =>
      DumpsItemsSize(items);
      Bracketed("[", DumpsItems(items), "]");
    case Obj(entries) =>
      DumpsEntriesSize(entries);
      Bracketed("{", DumpsEntries(entries), "}");
    case _ =>
  }

  lemma Bracketed(open: string, body: Text, close: string)
    requires |open| == |close| == 1 && open[0] <= '}' && close[0] <= '}'
    ensures Size(Lit(open) + body + Lit(close)) == 2 + Size(body)
    ensures Encodable(Lit(open) + body + Lit(close)) <==> Encodable(body)
  {
    AddConcat(Lit(open), body);
    AddConcat(Lit(open) + body, Lit(close));
  }

  lemma {:induction false} DumpsItemsSize(items: seq<Json>)
    ensures Size(DumpsItems(items)) == ItemsSize(items)
    ensures Encodable(DumpsItems(items)) <==> ItemsEncodable(items)
    decreases items, |items|
  {
    if items != [] {
      var n := |items| - 1;
      DumpsSize(items[n]);
      if n > 0 {
        DumpsItemsSize(items[..n]);
        SeparatedSize(DumpsItems(items[..n]), Dumps(items[n]));
      }
    }
  }

  lemma {:induction false} DumpsEntriesSize(entries: seq<Entry>)
    ensures Size(DumpsEntries(entries)) == EntriesSize(entries)
    ensures Encodable(DumpsEntries(entries)) <==> EntriesEncodable(entries)
    decreases entries, |entries|
  {
    if entries != [] {
      var n := |entries| - 1;
      DumpsSize(entries[n].value);
      DumpsEntriesSize(entries[..n]);
      LastEntrySize(entries);
    }
  }

  lemma LastEntrySize(entries: seq<Entry>)
    requires entries != []
    requires var init, value := entries[..|entries| - 1], entries[|entries| - 1].value;
             && Size(DumpsEntries(init)) == EntriesSize(init)
             && (Encodable(DumpsEntries(init)) <==> EntriesEncodable(init))
             && Size(Dumps(value)) == JsonSize(value) && (Encodable(Dumps(value)) <==> JsonEncodable(value))
    ensures Size(DumpsEntries(entries)) == EntriesSize(entries)
    ensures Encodable(DumpsEntries(entries)) <==> EntriesEncodable(entries)
  {
    var n := |entries| - 1;
    var entry := DumpsEntry(entries[n].key, Dumps(entries[n].value));
    DumpsEntrySize(entries[n].key, Dumps(entries[n].value));
    SeparatedSize(DumpsEntries(entries[..n]), entry);
  }

  lemma DumpsEntrySize(key: Text, value: Text)
    ensures Size(DumpsEntry(key, value)) == 4 + EscapedSize(key) + Size(value)
    ensures Encodable(DumpsEntry(key, value)) <==> Encodable(key) && Encodable(value)
  {
    QuotedSize(key);
    AddConcat(Quoted(key), Lit(": "));
    AddConcat(Quoted(key) + Lit(": "), value);
  }

  lemma SeparatedSize(a: Text, b: Text)
    ensures Size(a + Lit(", ") + b) == Size(a) + 2 + Size(b)
    ensures Encodable(a + Lit(", ") + b) <==> Encodable(a) && Encodable(b)
  {
    AddConcat(a, Lit(", "));
    AddConcat(a + Lit(", "), b);
  }

  // ---------------------------------------------------------------- prefixes are smaller

  lemma {:induction false} EscapedConcat(a: Text, b: Text)
    ensures EscapedSize(a + b) == EscapedSize(a) + EscapedSize(b)
  {
    if a == [] {
      assert a + b == b;
    } else {
      EscapedConcat(a[1..], b);
      assert (a + b)[1..] == a[1..] + b && (a + b)[0] == a[0];
    }
  }

  lemma EscapedPrefix(a: Text, b: Text)
    requires a <= b
    ensures EscapedSize(a) <= EscapedSize(b)
    ensures Encodable(b) ==> Encodable(a)
  {
    assert b == a + b[|a|..];
    EscapedConcat(a, b[|a|..]);
    EncodableConcat(a, b[|a|..]);
  }
}
