/** How much text a sanitized tool result carries. */
module ToolSizes {
  import opened Text
  import opened Json
  import opened Sanitize
  import opened ToolResults

  /** The total length of the strings and string keys of a value. */
  function Chars(v: Value): nat
    decreases v, 0
  {
    match v
    case String(t) => |t|
    case Dict(pairs) => PairsChars(pairs)
    case List(items) => ItemsChars(items)
    case Leaf(_, _) => 0
  }

  function KeyChars(key: Key): nat { if key.StrKey? then |key.text| else 0 }

  function PairsChars(pairs: seq<Pair>): nat
    decreases pairs, |pairs|
  {
    if pairs == [] then 0
    else
      var n := |pairs| - 1;
      assert pairs[n].value < pairs[n];
      PairsChars(pairs[..n]) + KeyChars(pairs[n].key) + Chars(pairs[n].value)
  }

  function ItemsChars(items: seq<Value>): nat
    decreases items, |items|
  {
    if items == [] then 0 else ItemsChars(items[..|items| - 1]) + Chars(items[|items| - 1])
  }

  // ---------------------------------------------------------------- nothing gets shorter

  lemma {:induction false} EscapeGrows(t: Text)
    ensures |t| <= |Escape(t)|
  {
    if t != [] { EscapeGrows(t[1..]); }
  }

  lemma {:induction false} AnglesGrow(t: Text)
    ensures |t| <= |EscapeAngles(t)|
  {
    if t != [] { AnglesGrow(t[1..]); }
  }

  lemma {:induction false} NeutralizeGrows(u: Pattern, t: Text)
    ensures |t| <= |Neutralize(u, t)|
    decreases |t|
  {
    if t != [] {
      var n := TagLength(u, t);
      if n > 0 {
        AnglesGrow(t[..n]);
        NeutralizeGrows(u, t[n..]);
      } else {
        NeutralizeGrows(u, t[1..]);
      }
    }
  }

  /** The rendering of a value is at least as long as the text it carries. */
  lemma {:induction false} CharsPrinted(v: Value)
    ensures Chars(v) <= |Dumps(ToJson(v))|
    decreases v, 0
  {
    match v
    case String(t) => EscapeGrows(t);
    case Dict(pairs) => PairsPrinted(pairs);
    case List(items) => ItemsPrinted(items);
    case Leaf(_, _) =>
  }

  lemma {:induction false} PairsPrinted(pairs: seq<Pair>)
    ensures PairsChars(pairs) <= |DumpsEntries(ToEntries(pairs))|
    decreases pairs, |pairs|
  {
    if pairs != [] {
      var n := |pairs| - 1;
      assert pairs[n].value < pairs[n];
      PairsPrinted(pairs[..n]);
      CharsPrinted(pairs[n].value);
      EscapeGrows(KeyText(pairs[n].key));
      assert ToEntries(pairs)[..n] == ToEntries(pairs[..n]);
    }
  }

  lemma {:induction false} ItemsPrinted(items: seq<Value>)
    ensures ItemsChars(items) <= |DumpsItems(ToItems(items))|
    decreases items, |items|
  {
    if items != [] {
      var n := |items| - 1;
      ItemsPrinted(items[..n]);
      CharsPrinted(items[n]);
      assert ToItems(items)[..n] == ToItems(items[..n]);
    }
  }

  // ---------------------------------------------------------------- what can be rendered

  /** Sanitizing keeps a value serializable. */
  lemma {:induction false} WalkSerializable(u: Pattern, v: Value)
    requires Serializable(v)
    ensures Serializable(Walk(u, v))
    decreases v, 0
  {
    match v
    case Dict(pairs) => PairsSerializable(u, pairs);
    case List(items) => ItemsSerializable(u, items);
    case _ =>
  }

  lemma {:induction false} PairsSerializable(u: Pattern, pairs: seq<Pair>)
    requires forall p <- pairs :: KeySerializable(p.key) && Serializable(p.value)
    ensures forall p <- WalkPairs(u, pairs) :: KeySerializable(p.key) && Serializable(p.value)
    decreases pairs, |pairs|
  {
    if pairs != [] {
      var n := |pairs| - 1;
      assert pairs[n] in pairs && pairs[n].value < pairs[n];
      PairsSerializable(u, pairs[..n]);
      WalkSerializable(u, pairs[n].value);
      AssignMembers(WalkPairs(u, pairs[..n]), WalkKey(u, pairs[n].key), Walk(u, pairs[n].value));
    }
  }

  lemma {:induction false} ItemsSerializable(u: Pattern, items: seq<Value>)
    requires forall item <- items :: Serializable(item)
    ensures forall item <- WalkItems(u, items) :: Serializable(item)
    decreases items, |items|
  {
    if items != [] {
      var n := |items| - 1;
      assert items[n] in items;
      ItemsSerializable(u, items[..n]);
      WalkSerializable(u, items[n]);
    }
  }

  // ---------------------------------------------------------------- the bound

  lemma {:induction false} FewCharsShort(v: Value)
    requires Chars(v) <= MAX_RESULT_CHARS
    ensures LeavesShort(v)
    decreases v, 0
  {
    match v
    case Dict(pairs) => PairsShort(pairs);
    case List(items) => ItemsShort(items);
    case _ =>
  }

  lemma {:induction false} PairsShort(pairs: seq<Pair>)
    requires PairsChars(pairs) <= MAX_RESULT_CHARS
    ensures forall p <- pairs :: LeavesShort(p.value)
    decreases pairs, |pairs|
  {
    if pairs != [] {
      var n := |pairs| - 1;
      assert pairs[n].value < pairs[n];
      PairsShort(pairs[..n]);
      FewCharsShort(pairs[n].value);
      assert forall p <- pairs :: p in pairs[..n] || p == pairs[n];
    }
  }

  lemma {:induction false} ItemsShort(items: seq<Value>)
    requires ItemsChars(items) <= MAX_RESULT_CHARS
    ensures forall item <- items :: LeavesShort(item)
    decreases items, |items|
  {
    if items != [] {
      var n := |items| - 1;
      ItemsShort(items[..n]);
      FewCharsShort(items[n]);
      assert forall item <- items :: item in items[..n] || item == items[n];
    }
  }

  /** Every string of a result is short, keys aside.  If the tool's value is serializable, the whole
      result carries at most 50,000 characters, and the note besides if it is a string. */
  lemma ResultBounded(u: Pattern, v: Value)
    requires Sane(u)
    ensures var r := NeutralizeResult(u, v);
            && LeavesShort(r)
            && (Serializable(v) ==>
                  Chars(r) <= MAX_RESULT_CHARS + if r.String? then |TRUNCATION_NOTE| else 0)
  {
    var clean := Walk(u, v);
    WalkCleans(u, v);
    CapKeepsClean(u, clean);
    if Serializable(v) { WalkSerializable(u, v); }
    if !clean.String? && Serializable(clean) {
      CharsPrinted(clean);
      NeutralizeGrows(u, DumpsValue(clean).value);
      if Chars(clean) <= MAX_RESULT_CHARS { FewCharsShort(clean); }
    }
  }
}
