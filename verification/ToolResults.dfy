/** `_neutralize_result`: escaping reserved tags in a tool result, and capping its size. */
module ToolResults {
  import opened Prelude
  import opened Text
  import opened Json
  import opened Sanitize

  const MAX_RESULT_CHARS: nat := 50000

  const TRUNCATION_NOTE: Text := Lit("\n[truncated by henry: ") + Lit("tool result exceeded ") + Lit("50000 chars]")

  /** A dictionary key; keys that are not strings have the text `json.dumps` gives them, if any. */
  datatype Key = StrKey(text: Text) | OtherKey(id: nat, json: Option<Text>)

  datatype Pair = Pair(key: Key, value: Value)

  /** A Python value; a leaf that is no string has its JSON text, if it is serializable. */
  datatype Value =
    | String(text: Text)
    | Dict(pairs: seq<Pair>)
    | List(items: seq<Value>)
    | Leaf(id: nat, json: Option<Text>)

  function Truncate(t: Text): Text {
    if |t| <= MAX_RESULT_CHARS then t else t[..MAX_RESULT_CHARS] + TRUNCATION_NOTE
  }

  /** Item assignment in a dictionary: an equal key keeps its place. */
  function Assign(pairs: seq<Pair>, key: Key, value: Value): seq<Pair> {
    if pairs == [] then [Pair(key, value)]
    else if pairs[0].key == key then [Pair(key, value)] + pairs[1..]
    else [pairs[0]] + Assign(pairs[1..], key, value)
  }

  function WalkKey(u: Pattern, key: Key): Key {
    if key.StrKey? then StrKey(Neutralize(u, key.text)) else key
  }

  /** `walk`. */
  function Walk(u: Pattern, v: Value): Value
    decreases v, 0
  {
    match v
    case String(t) => String(Neutralize(u, t))
    case Dict(pairs) => Dict(WalkPairs(u, pairs))
    case List(items) => List(WalkItems(u, items))
    case Leaf(_, _) => v
  }

  function WalkPairs(u: Pattern, pairs: seq<Pair>): seq<Pair>
    decreases pairs, |pairs|
  {
    if pairs == [] then []
    else
      var n := |pairs| - 1;
      assert pairs[n].value < pairs[n];
      Assign(WalkPairs(u, pairs[..n]), WalkKey(u, pairs[n].key), Walk(u, pairs[n].value))
  }

  function WalkItems(u: Pattern, items: seq<Value>): seq<Value>
    decreases items, |items|
  {
    if items == [] then []
    else WalkItems(u, items[..|items| - 1]) + [Walk(u, items[|items| - 1])]
  }

  /** `cap_strings`; keys are left alone. */
  function CapStrings(v: Value): Value
    decreases v, 0
  {
    match v
    case String(t) => String(Truncate(t))
    case Dict(pairs) => Dict(CapPairs(pairs))
    case List(items) => List(CapItems(items))
    case Leaf(_, _) => v
  }

  function CapPairs(pairs: seq<Pair>): seq<Pair>
    decreases pairs, |pairs|
  {
    if pairs == [] then []
    else
      var n := |pairs| - 1;
      assert pairs[n].value < pairs[n];
      CapPairs(pairs[..n]) + [Pair(pairs[n].key, CapStrings(pairs[n].value))]
  }

  function CapItems(items: seq<Value>): seq<Value>
    decreases items, |items|
  {
    if items == [] then [] else CapItems(items[..|items| - 1]) + [CapStrings(items[|items| - 1])]
  }

  predicate KeySerializable(key: Key) { key.StrKey? || key.json.Some? }

  /** Every leaf, and every key that is no string, has a JSON form. */
  predicate Serializable(v: Value)
    decreases v, 0
  {
    match v
    case String(_) => true
    case Dict(pairs) => forall p <- pairs :: KeySerializable(p.key) && Serializable(p.value)
    case List(items) => forall item <- items :: Serializable(item)
    case Leaf(_, json) => json.Some?
  }

  /** The JSON value that is printed for a serializable one; a leaf is printed as its JSON text. */
  function ToJson(v: Value): Json
    decreases v, 0
  {
    match v
    case String(t) => Str(t)
    case Dict(pairs) => Obj(ToEntries(pairs))
    case List(items) => Arr(ToItems(items))
    case Leaf(_, json) => Float(if json.Some? then json.value else [])
  }

  function KeyText(key: Key): Text {
    if key.StrKey? then key.text else if key.json.Some? then key.json.value else []
  }

  function ToEntries(pairs: seq<Pair>): (r: seq<Entry>)
    ensures |r| == |pairs|
    decreases pairs, |pairs|
  {
    if pairs == [] then []
    else
      var n := |pairs| - 1;
      assert pairs[n].value < pairs[n];
      ToEntries(pairs[..n]) + [Entry(KeyText(pairs[n].key), ToJson(pairs[n].value))]
  }

  function ToItems(items: seq<Value>): (r: seq<Json>)
    ensures |r| == |items|
    decreases items, |items|
  {
    if items == [] then [] else ToItems(items[..|items| - 1]) + [ToJson(items[|items| - 1])]
  }

  /** `json.dumps(value, ensure_ascii=False)`; `None` when some part is not serializable. */
  function DumpsValue(v: Value): Option<Text> {
    if Serializable(v) then Some(Dumps(ToJson(v))) else None
  }

  /** `_neutralize_result`. */
  function NeutralizeResult(u: Pattern, v: Value): Value {
    var clean := Walk(u, v);
    match clean
    case String(t) => String(Truncate(t))
    case Leaf(_, _) => clean
    case _ =>
      match DumpsValue(clean)
      case None => CapStrings(clean)
      case Some(text) =>
        var rendered := Neutralize(u, text);
        if |rendered| <= MAX_RESULT_CHARS then clean
        else String(rendered[..MAX_RESULT_CHARS] + TRUNCATION_NOTE)
  }

  // ---------------------------------------------------------------- cleanliness

  ghost predicate KeyClean(u: Pattern, key: Key) { key.StrKey? ==> Clean(u, key.text) }

  /** No reserved tag in any string or string key of the value. */
  ghost predicate ValueClean(u: Pattern, v: Value)
    decreases v, 0
  {
    match v
    case String(t) => Clean(u, t)
    case Dict(pairs) => forall p <- pairs :: KeyClean(u, p.key) && ValueClean(u, p.value)
    case List(items) => forall item <- items :: ValueClean(u, item)
    case Leaf(_, _) => true
  }

  lemma TruncateClean(u: Pattern, t: Text)
    requires Clean(u, t)
    ensures Clean(u, Truncate(t)) && |Truncate(t)| <= MAX_RESULT_CHARS + |TRUNCATION_NOTE|
  {
    if |t| > MAX_RESULT_CHARS { CutClean(u, t); }
  }

  lemma NoteIsHarmless()
    ensures GT !in TRUNCATION_NOTE
  {
    PlainNote("\n[truncated by henry: ");
    PlainNote("tool result exceeded ");
    PlainNote("50000 chars]");
  }

  lemma PlainNote(s: string)
    requires forall i | 0 <= i < |s| :: s[i] != '>'
    ensures GT !in Lit(s)
  {
    forall i | 0 <= i < |s| ensures Lit(s)[i] != GT {
      assert s[i] as int != '>' as int;
    }
  }

  lemma CutClean(u: Pattern, t: Text)
    requires Clean(u, t) && |t| > MAX_RESULT_CHARS
    ensures Clean(u, t[..MAX_RESULT_CHARS] + TRUNCATION_NOTE)
  {
    CleanPrefix(u, t, MAX_RESULT_CHARS);
    NoteIsHarmless();
    CleanAppend(u, t[..MAX_RESULT_CHARS], TRUNCATION_NOTE);
  }

  lemma {:induction false} AssignMembers(pairs: seq<Pair>, key: Key, value: Value)
    ensures forall p <- Assign(pairs, key, value) :: p in pairs || p == Pair(key, value)
  {
    if pairs != [] && pairs[0].key != key { AssignMembers(pairs[1..], key, value); }
  }

  lemma {:induction false} WalkCleans(u: Pattern, v: Value)
    requires Sane(u)
    ensures ValueClean(u, Walk(u, v))
    decreases v, 0
  {
    match v
    case String(t) => NeutralizeCleans(u, t);
    case Dict(pairs) => WalkPairsCleans(u, pairs);
    case List(items) => WalkItemsCleans(u, items);
    case Leaf(_, _) =>
  }

  lemma {:induction false} WalkPairsCleans(u: Pattern, pairs: seq<Pair>)
    requires Sane(u)
    ensures forall p <- WalkPairs(u, pairs) :: KeyClean(u, p.key) && ValueClean(u, p.value)
    decreases pairs, |pairs|
  {
    if pairs != [] {
      var n := |pairs| - 1;
      WalkPairsCleans(u, pairs[..n]);
      assert pairs[n].value < pairs[n];
      WalkCleans(u, pairs[n].value);
      if pairs[n].key.StrKey? { NeutralizeCleans(u, pairs[n].key.text); }
      AssignMembers(WalkPairs(u, pairs[..n]), WalkKey(u, pairs[n].key), Walk(u, pairs[n].value));
    }
  }

  lemma {:induction false} WalkItemsCleans(u: Pattern, items: seq<Value>)
    requires Sane(u)
    ensures forall item <- WalkItems(u, items) :: ValueClean(u, item)
    decreases items, |items|
  {
    if items != [] {
      WalkItemsCleans(u, items[..|items| - 1]);
      WalkCleans(u, items[|items| - 1]);
    }
  }

  /** Every string in the value is short, its keys aside. */
  predicate LeavesShort(v: Value)
    decreases v, 0
  {
    match v
    case String(t) => |t| <= MAX_RESULT_CHARS + |TRUNCATION_NOTE|
    case Dict(pairs) => forall p <- pairs :: LeavesShort(p.value)
    case List(items) => forall item <- items :: LeavesShort(item)
    case Leaf(_, _) => true
  }

  lemma {:induction false} CapKeepsClean(u: Pattern, v: Value)
    requires ValueClean(u, v)
    ensures ValueClean(u, CapStrings(v)) && LeavesShort(CapStrings(v))
    decreases v, 0
  {
    match v
    case String(t) => TruncateClean(u, t);
    case Dict(pairs) => CapPairsKeepsClean(u, pairs);
    case List(items) => CapItemsKeepsClean(u, items);
    case Leaf(_, _) =>
  }

  lemma {:induction false} CapPairsKeepsClean(u: Pattern, pairs: seq<Pair>)
    requires forall p <- pairs :: KeyClean(u, p.key) && ValueClean(u, p.value)
    ensures forall p <- CapPairs(pairs) :: KeyClean(u, p.key) && ValueClean(u, p.value) && LeavesShort(p.value)
    decreases pairs, |pairs|
  {
    if pairs != [] {
      var n := |pairs| - 1;
      assert pairs[n] in pairs;
      CapPairsKeepsClean(u, pairs[..n]);
      assert pairs[n].value < pairs[n];
      CapKeepsClean(u, pairs[n].value);
    }
  }

  lemma {:induction false} CapItemsKeepsClean(u: Pattern, items: seq<Value>)
    requires forall item <- items :: ValueClean(u, item)
    ensures forall item <- CapItems(items) :: ValueClean(u, item) && LeavesShort(item)
    decreases items, |items|
  {
    if items != [] {
      var n := |items| - 1;
      assert items[n] in items;
      CapItemsKeepsClean(u, items[..n]);
      CapKeepsClean(u, items[n]);
    }
  }

  /** Whatever the tool returned, no string and no key of the result holds a reserved tag. */
  lemma ResultClean(u: Pattern, v: Value)
    requires Sane(u)
    ensures ValueClean(u, NeutralizeResult(u, v))
  {
    var clean := Walk(u, v);
    WalkCleans(u, v);
    match clean
    case String(t) => TruncateClean(u, t);
    case Leaf(_, _) =>
    case _ =>
      match DumpsValue(clean)
      case None => CapKeepsClean(u, clean);
      case Some(text) =>
        NeutralizeCleans(u, text);
        if |Neutralize(u, text)| > MAX_RESULT_CHARS { CutClean(u, Neutralize(u, text)); }
  }

  // ---------------------------------------------------------------- clean results pass through

  /** A dictionary has each key once. */
  predicate DistinctKeys(v: Value)
    decreases v, 0
  {
    match v
    case Dict(pairs) =>
      && (forall i, j | 0 <= i < j < |pairs| :: pairs[i].key != pairs[j].key)
      && (forall p <- pairs :: DistinctKeys(p.value))
    case List(items) => forall item <- items :: DistinctKeys(item)
    case _ => true
  }

  lemma {:induction false} AssignNew(pairs: seq<Pair>, key: Key, value: Value)
    requires forall p <- pairs :: p.key != key
    ensures Assign(pairs, key, value) == pairs + [Pair(key, value)]
  {
    if pairs != [] {
      AssignNew(pairs[1..], key, value);
      assert pairs == [pairs[0]] + pairs[1..];
    }
  }

  lemma {:induction false} WalkKeepsClean(u: Pattern, v: Value)
    requires Sane(u) && ValueClean(u, v) && DistinctKeys(v)
    ensures Walk(u, v) == v
    decreases v, 0
  {
    match v
    case String(t) => CleanStays(u, t);
    case Dict(pairs) =>
      forall i | 0 <= i < |pairs| ensures PairClean(u, pairs[i]) { assert pairs[i] in pairs; }
      WalkPairsKeepsClean(u, pairs);
    case List(items) => WalkItemsKeepsClean(u, items);
    case Leaf(_, _) =>
  }

  ghost predicate PairClean(u: Pattern, p: Pair) {
    KeyClean(u, p.key) && ValueClean(u, p.value) && DistinctKeys(p.value)
  }

  lemma WalkKeyKeepsClean(u: Pattern, key: Key)
    requires Sane(u) && KeyClean(u, key)
    ensures WalkKey(u, key) == key
  {
    if key.StrKey? { CleanStays(u, key.text); }
  }

  lemma {:induction false} WalkPairsKeepsClean(u: Pattern, pairs: seq<Pair>)
    requires Sane(u) && forall i | 0 <= i < |pairs| :: PairClean(u, pairs[i])
    requires forall i, j | 0 <= i < j < |pairs| :: pairs[i].key != pairs[j].key
    ensures WalkPairs(u, pairs) == pairs
    decreases pairs, |pairs|
  {
    if pairs != [] {
      var n := |pairs| - 1;
      assert PairClean(u, pairs[n]) && pairs[n].value < pairs[n];
      forall i | 0 <= i < n ensures PairClean(u, pairs[..n][i]) {}
      WalkPairsKeepsClean(u, pairs[..n]);
      WalkKeepsClean(u, pairs[n].value);
      WalkKeyKeepsClean(u, pairs[n].key);
      WalkPairsStep(u, pairs);
    }
  }

  lemma WalkPairsStep(u: Pattern, pairs: seq<Pair>)
    requires var n := |pairs| - 1;
             && n >= 0 && WalkPairs(u, pairs[..n]) == pairs[..n]
             && Walk(u, pairs[n].value) == pairs[n].value && WalkKey(u, pairs[n].key) == pairs[n].key
    requires forall i, j | 0 <= i < j < |pairs| :: pairs[i].key != pairs[j].key
    ensures WalkPairs(u, pairs) == pairs
  {
    var n := |pairs| - 1;
    forall p <- pairs[..n] ensures p.key != pairs[n].key {
      var i :| 0 <= i < n && pairs[..n][i] == p;
      assert pairs[i] == p;
    }
    AssignNew(pairs[..n], pairs[n].key, pairs[n].value);
    assert Pair(pairs[n].key, pairs[n].value) == pairs[n];
    assert pairs == pairs[..n] + [pairs[n]];
  }

  lemma {:induction false} WalkItemsKeepsClean(u: Pattern, items: seq<Value>)
    requires Sane(u) && forall item <- items :: ValueClean(u, item) && DistinctKeys(item)
    ensures WalkItems(u, items) == items
    decreases items, |items|
  {
    if items != [] {
      var n := |items| - 1;
      assert items[n] in items;
      WalkItemsKeepsClean(u, items[..n]);
      WalkKeepsClean(u, items[n]);
      assert items == items[..n] + [items[n]];
    }
  }

  /** A clean result within the limit is returned as it is. */
  lemma CleanResultUnchanged(u: Pattern, v: Value)
    requires Sane(u) && ValueClean(u, v) && DistinctKeys(v)
    requires match v
             case String(t) => |t| <= MAX_RESULT_CHARS
             case Leaf(_, _) => true
             case _ => DumpsValue(v).Some? && |Neutralize(u, DumpsValue(v).value)| <= MAX_RESULT_CHARS
    ensures NeutralizeResult(u, v) == v
  {
    WalkKeepsClean(u, v);
  }

  // ---------------------------------------------------------------- where the whole is not capped

  /** `n` short strings and one part that is not serializable, such as an image. */
  function Album(n: nat): Value { List(seq(n, _ => String([97])) + [Leaf(0, None)]) }

  lemma {:induction false} CapItemsShort(items: seq<Value>)
    requires forall i | 0 <= i < |items| :: items[i] == String([97]) || items[i] == Leaf(0, None)
    ensures CapItems(items) == items
    decreases |items|
  {
    if items != [] {
      var n := |items| - 1;
      CapItemsShort(items[..n]);
      assert items == items[..n] + [items[n]];
    }
  }

  /** A result with a part that is not serializable is capped string by string only, so as a whole it
      can be of any size. */
  lemma WholeResultUncapped(u: Pattern, n: nat)
    requires Sane(u)
    ensures NeutralizeResult(u, Album(n)) == Album(n) && |Album(n).items| == n + 1
  {
    var items := Album(n).items;
    forall item <- items ensures ValueClean(u, item) && DistinctKeys(item) {
      if item.String? {
        forall i: nat, k: nat | i <= 1 ensures !IsTag(u, [97][i..], k) { NoBracketNoTag(u, [97][i..], k); }
      }
    }
    WalkItemsKeepsClean(u, items);
    assert items[n] == Leaf(0, None);
    assert Leaf(0, None) in items && !Serializable(Leaf(0, None));
    CapItemsShort(items);
  }
}
