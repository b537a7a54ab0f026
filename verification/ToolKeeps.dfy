/** What a sanitized tool result keeps of the tool's value. */
module ToolKeeps {
  import opened Prelude
  import opened Text
  import opened Json
  import opened Sanitize
  import opened ToolResults

  /** The first 50,000 characters of `t`, and the note. */
  predicate CutTo(t: Text, r: Text) {
    && |t| > 50000 && |r| == 50000 + |TRUNCATION_NOTE|
    && r[..50000] == t[..50000] && r[50000..] == TRUNCATION_NOTE
  }

  predicate TextKept(t: Text, r: Text) { if |t| <= 50000 then r == t else CutTo(t, r) }

  lemma TruncateKeeps(t: Text)
    ensures TextKept(t, Truncate(t))
  {
  }

  /** `r` is `v` with each of its strings kept, or cut on its own; keys and positions are the same. */
  predicate Capped(v: Value, r: Value)
    decreases v
  {
    match v
    case String(t) => r.String? && TextKept(t, r.text)
    case Dict(pairs) =>
      && r.Dict? && |r.pairs| == |pairs|
      && forall i | 0 <= i < |pairs| ::
           r.pairs[i].key == pairs[i].key && assert pairs[i].value < pairs[i]; Capped(pairs[i].value, r.pairs[i].value)
    case List(items) =>
      && r.List? && |r.items| == |items|
      && forall i | 0 <= i < |items| :: Capped(items[i], r.items[i])
    case Leaf(_, _) => r == v
  }

  lemma {:induction false} CapStringsCaps(v: Value)
    ensures Capped(v, CapStrings(v))
    decreases v, 0
  {
    match v
    case String(t) => TruncateKeeps(t);
    case Dict(pairs) => CapPairsCaps(pairs);
    case List(items) => CapItemsCaps(items);
    case Leaf(_, _) =>
  }

  predicate PairsCapped(pairs: seq<Pair>, capped: seq<Pair>) {
    && |capped| == |pairs|
    && forall i | 0 <= i < |pairs| :: capped[i].key == pairs[i].key && Capped(pairs[i].value, capped[i].value)
  }

  predicate ItemsCapped(items: seq<Value>, capped: seq<Value>) {
    |capped| == |items| && forall i | 0 <= i < |items| :: Capped(items[i], capped[i])
  }

  lemma {:induction false} CapPairsCaps(pairs: seq<Pair>)
    ensures PairsCapped(pairs, CapPairs(pairs))
    decreases pairs, |pairs|
  {
    if pairs != [] {
      var n := |pairs| - 1;
      assert pairs[n].value < pairs[n];
      CapPairsCaps(pairs[..n]);
      CapStringsCaps(pairs[n].value);
      PairsCappedSnoc(pairs[..n], CapPairs(pairs[..n]), pairs[n], Pair(pairs[n].key, CapStrings(pairs[n].value)));
      assert pairs == pairs[..n] + [pairs[n]];
    }
  }

  lemma PairsCappedSnoc(pairs: seq<Pair>, capped: seq<Pair>, p: Pair, r: Pair)
    requires PairsCapped(pairs, capped) && r.key == p.key && Capped(p.value, r.value)
    ensures PairsCapped(pairs + [p], capped + [r])
  {
  }

  lemma {:induction false} CapItemsCaps(items: seq<Value>)
    ensures ItemsCapped(items, CapItems(items))
    decreases items, |items|
  {
    if items != [] {
      var n := |items| - 1;
      CapItemsCaps(items[..n]);
      CapStringsCaps(items[n]);
      ItemsCappedSnoc(items[..n], CapItems(items[..n]), items[n], CapStrings(items[n]));
      assert items == items[..n] + [items[n]];
    }
  }

  lemma ItemsCappedSnoc(items: seq<Value>, capped: seq<Value>, item: Value, r: Value)
    requires ItemsCapped(items, capped) && Capped(item, r)
    ensures ItemsCapped(items + [item], capped + [r])
  {
  }

  // ---------------------------------------------------------------- sanitizing keeps the shape

  /** `r` is `v` with each string and string key sanitized, in the same places. */
  predicate Sanitized(u: Pattern, v: Value, r: Value)
    decreases v
  {
    match v
    case String(t) => r == String(Neutralize(u, t))
    case Dict(pairs) =>
      && r.Dict? && |r.pairs| == |pairs|
      && forall i | 0 <= i < |pairs| ::
           && r.pairs[i].key
                == (if pairs[i].key.StrKey? then StrKey(Neutralize(u, pairs[i].key.text)) else pairs[i].key)
           && assert pairs[i].value < pairs[i]; Sanitized(u, pairs[i].value, r.pairs[i].value)
    case List(items) =>
      && r.List? && |r.items| == |items|
      && forall i | 0 <= i < |items| :: Sanitized(u, items[i], r.items[i])
    case Leaf(_, _) => r == v
  }

  /** The keys of every dictionary stay different when they are sanitized. */
  predicate KeysStayApart(u: Pattern, v: Value)
    decreases v
  {
    match v
    case Dict(pairs) =>
      && (forall i, j | 0 <= i < j < |pairs| :: WalkKey(u, pairs[i].key) != WalkKey(u, pairs[j].key))
      && (forall p <- pairs :: KeysStayApart(u, p.value))
    case List(items) => forall item <- items :: KeysStayApart(u, item)
    case _ => true
  }

  /** Where no two keys of a dictionary become one, every string and key is sanitized in its place. */
  lemma {:induction false} WalkSanitizes(u: Pattern, v: Value)
    requires KeysStayApart(u, v)
    ensures Sanitized(u, v, Walk(u, v))
    decreases v, 0
  {
    match v
    case Dict(pairs) =>
      forall i | 0 <= i < |pairs| ensures KeysStayApart(u, pairs[i].value) { assert pairs[i] in pairs; }
      WalkPairsSanitizes(u, pairs);
    case List(items) =>
      forall i | 0 <= i < |items| ensures KeysStayApart(u, items[i]) { assert items[i] in items; }
      WalkItemsSanitizes(u, items);
    case _ =>
  }

  predicate PairSanitized(u: Pattern, p: Pair, r: Pair) {
    r.key == WalkKey(u, p.key) && Sanitized(u, p.value, r.value)
  }

  predicate PairsSanitized(u: Pattern, pairs: seq<Pair>, walked: seq<Pair>) {
    |walked| == |pairs| && forall i | 0 <= i < |pairs| :: PairSanitized(u, pairs[i], walked[i])
  }

  predicate ItemsSanitized(u: Pattern, items: seq<Value>, walked: seq<Value>) {
    |walked| == |items| && forall i | 0 <= i < |items| :: Sanitized(u, items[i], walked[i])
  }

  lemma NewKey(u: Pattern, pairs: seq<Pair>, walked: seq<Pair>, key: Key)
    requires PairsSanitized(u, pairs, walked) && forall i | 0 <= i < |pairs| :: WalkKey(u, pairs[i].key) != key
    ensures forall p <- walked :: p.key != key
  {
    forall p <- walked ensures p.key != key {
      var i :| 0 <= i < |walked| && walked[i] == p;
      assert PairSanitized(u, pairs[i], walked[i]);
    }
  }

  lemma {:induction false} WalkPairsSanitizes(u: Pattern, pairs: seq<Pair>)
    requires forall i | 0 <= i < |pairs| :: KeysStayApart(u, pairs[i].value)
    requires forall i, j | 0 <= i < j < |pairs| :: WalkKey(u, pairs[i].key) != WalkKey(u, pairs[j].key)
    ensures PairsSanitized(u, pairs, WalkPairs(u, pairs))
    decreases pairs, |pairs|
  {
    if pairs != [] {
      var n := |pairs| - 1;
      assert pairs[n].value < pairs[n];
      WalkPairsSanitizes(u, pairs[..n]);
      WalkSanitizes(u, pairs[n].value);
      var last := Pair(WalkKey(u, pairs[n].key), Walk(u, pairs[n].value));
      NewKey(u, pairs[..n], WalkPairs(u, pairs[..n]), last.key);
      AssignNew(WalkPairs(u, pairs[..n]), last.key, last.value);
      PairsSnoc(u, pairs[..n], WalkPairs(u, pairs[..n]), pairs[n], last);
      assert pairs == pairs[..n] + [pairs[n]];
    }
  }

  lemma PairsSnoc(u: Pattern, pairs: seq<Pair>, walked: seq<Pair>, p: Pair, r: Pair)
    requires PairsSanitized(u, pairs, walked) && PairSanitized(u, p, r)
    ensures PairsSanitized(u, pairs + [p], walked + [r])
  {
  }

  lemma {:induction false} WalkItemsSanitizes(u: Pattern, items: seq<Value>)
    requires forall i | 0 <= i < |items| :: KeysStayApart(u, items[i])
    ensures ItemsSanitized(u, items, WalkItems(u, items))
    decreases items, |items|
  {
    if items != [] {
      var n := |items| - 1;
      WalkItemsSanitizes(u, items[..n]);
      WalkSanitizes(u, items[n]);
      ItemsSnoc(u, items[..n], WalkItems(u, items[..n]), items[n], Walk(u, items[n]));
      assert items == items[..n] + [items[n]];
    }
  }

  lemma ItemsSnoc(u: Pattern, items: seq<Value>, walked: seq<Value>, item: Value, r: Value)
    requires ItemsSanitized(u, items, walked) && Sanitized(u, item, r)
    ensures ItemsSanitized(u, items + [item], walked + [r])
  {
  }

  // ---------------------------------------------------------------- the result

  /** A string is kept up to 50,000 characters.  A structure that can be rendered is kept as it is if its
      sanitized rendering is no longer than that, and otherwise the rendering is, up to there.  Of one that
      cannot be rendered every string is kept up to there in its place. */
  lemma ResultKeeps(u: Pattern, v: Value)
    ensures var clean, r := Walk(u, v), NeutralizeResult(u, v);
            match clean
            case String(t) => r.String? && TextKept(t, r.text)
            case Leaf(_, _) => r == clean
            case _ =>
              if Serializable(clean) then
                var rendered := Neutralize(u, Dumps(ToJson(clean)));
                if |rendered| <= 50000 then r == clean else r.String? && CutTo(rendered, r.text)
              else Capped(clean, r)
  {
    var clean := Walk(u, v);
    if clean.String? { TruncateKeeps(clean.text); }
    CapStringsCaps(clean);
  }
}
