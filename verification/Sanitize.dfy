/**
  `neutralize_delimiters`: escaping reserved framing tags in untrusted text.

  The pattern is an opening angle bracket, an optional slash with spaces around it, a reserved name
  that ends at a word boundary, and anything up to the next closing bracket.  It is given twice: by
  what it matches (`IsTag`), and by a scanner that finds the match at a position (`TagLength`).  What
  Unicode calls white space, a word character or the lower case of a character is a parameter.
 */
module Sanitize {
  import opened Prelude
  import opened Text

  /** The reserved names, and `\s`, `\w` and the case folding of the `re` module. */
  datatype Pattern = Pattern(names: seq<Text>, space: Code -> bool, word: Code -> bool, fold: Code -> Code)

  const LT: Code := 60
  const GT: Code := 62
  const SLASH: Code := 47
  const AMP: Code := 38

  /** `RESERVED_TAGS`. */
  const RESERVED: seq<Text> := [Lit("slack_thread"), Lit("user_request"), Lit("channel_memory"), Lit("integrations")]

  predicate Punctuation(c: Code) { c == LT || c == GT || c == SLASH || c == AMP }

  predicate TagLetter(c: int) { 97 <= c <= 122 || c == 95 }

  /** The names are lower-case words with different initials. */
  predicate GoodNames(names: seq<Text>) {
    && (forall i | 0 <= i < |names| :: names[i] != [] && forall x | 0 <= x < |names[i]| :: TagLetter(names[i][x]))
    && (forall i, j | 0 <= i < j < |names| :: names[i][0] != names[j][0])
  }

  /** `<`, `>`, `/` and `&` are no spaces, word characters or letters; a space folds to no letter. */
  ghost predicate Sane(u: Pattern) {
    && GoodNames(u.names)
    && (forall c: Code | Punctuation(c) :: !u.space(c) && !u.word(c) && u.fold(c) == c)
    && (forall c: Code :: u.space(c) ==> !TagLetter(u.fold(c)))
  }

  lemma LettersLit(s: string)
    requires s != "" && forall i | 0 <= i < |s| :: 'a' <= s[i] <= 'z' || s[i] == '_'
    ensures |Lit(s)| == |s| && Lit(s)[0] == s[0] as int && forall i | 0 <= i < |Lit(s)| :: TagLetter(Lit(s)[i])
  {
  }

  lemma ReservedAreGood()
    ensures GoodNames(RESERVED)
  {
    LettersLit("slack_thread");
    LettersLit("user_request");
    LettersLit("channel_memory");
    LettersLit("integrations");
  }

  /** The pattern of `RESERVED_TAGS` on ASCII text. */
  function AsciiPattern(): Pattern {
    Pattern(
      RESERVED,
      c => 9 <= c <= 13 || c == 32,
      c => 48 <= c <= 57 || 65 <= c <= 90 || 97 <= c <= 122 || c == 95,
      c => if 65 <= c <= 90 then c + 32 else c)
  }

  /** What the theorems require of a pattern is met with the reserved names. */
  lemma ReservedSane()
    ensures Sane(AsciiPattern()) && AsciiPattern().names == RESERVED
  {
    ReservedAreGood();
  }

  predicate AllSpace(u: Pattern, t: Text) { forall i | 0 <= i < |t| :: u.space(t[i]) }

  predicate SpellsTag(u: Pattern, t: Text, name: Text) {
    |t| == |name| && forall i | 0 <= i < |t| :: u.fold(t[i]) == name[i]
  }

  /** `h` is a tag up to its name: the slash, if any, from `i` to `j`, and the name from `k` on. */
  predicate StartParts(u: Pattern, h: Text, i: nat, j: nat, k: nat, name: Text) {
    && 1 <= i <= j <= k <= |h|
    && h[0] == LT && AllSpace(u, h[1..i])
    && (h[i..j] == [] || h[i..j] == [SLASH])
    && AllSpace(u, h[j..k])
    && name in u.names && SpellsTag(u, h[k..], name)
  }

  ghost predicate IsStart(u: Pattern, h: Text) {
    exists i: nat, j: nat, k: nat, name: Text :: StartParts(u, h, i, j, k, name)
  }

  predicate WordAt(u: Pattern, t: Text, m: nat) { m < |t| && u.word(t[m]) }

  /** `\b` after the name that ends at `m`. */
  predicate Boundary(u: Pattern, t: Text, m: nat)
    requires 0 < m <= |t|
  {
    u.word(t[m - 1]) != WordAt(u, t, m)
  }

  /** The tag's name ends at `m`, and the tag with its first `n` characters. */
  ghost predicate TagParts(u: Pattern, t: Text, m: nat, n: nat) {
    && 0 < m < n <= |t|
    && IsStart(u, t[..m]) && Boundary(u, t, m)
    && t[n - 1] == GT && GT !in t[m..n - 1]
  }

  /** The pattern matches the first `n` characters of `t`. */
  ghost predicate IsTag(u: Pattern, t: Text, n: nat) { exists m: nat :: TagParts(u, t, m, n) }

  /** No match of the pattern anywhere. */
  ghost predicate Clean(u: Pattern, t: Text) {
    forall i: nat, n: nat | i <= |t| :: !IsTag(u, t[i..], n)
  }

  // ---------------------------------------------------------------- the scanner

  function SkipSpaces(u: Pattern, t: Text, i: nat): (k: nat)
    requires i <= |t|
    ensures i <= k <= |t| && AllSpace(u, t[i..k])
    ensures k == |t| || !u.space(t[k])
    decreases |t| - i
  {
    if i == |t| || !u.space(t[i]) then i
    else
      var k := SkipSpaces(u, t, i + 1);
      assert forall x | 0 <= x < k - i :: u.space(t[i..k][x]) by {
        forall x | 0 <= x < k - i ensures u.space(t[i..k][x]) {
          if x > 0 { assert t[i..k][x] == t[i + 1..k][x - 1]; }
        }
      }
      k
  }

  predicate Spells(u: Pattern, t: Text, k: nat, name: Text)
    requires k <= |t|
  {
    k + |name| <= |t| && SpellsTag(u, t[k..k + |name|], name)
  }

  /** The first of `names` that the text spells from `k` on. */
  function FirstName(u: Pattern, t: Text, k: nat, names: seq<Text>): (r: Option<Text>)
    requires k <= |t|
    ensures r.Some? ==> r.value in names && Spells(u, t, k, r.value)
    ensures r.None? ==> forall name <- names :: !Spells(u, t, k, name)
  {
    if names == [] then None
    else if Spells(u, t, k, names[0]) then Some(names[0])
    else FirstName(u, t, k, names[1..])
  }

  /** Where the name that starts at `k` ends, or 0 if none does. */
  function NameEnd(u: Pattern, t: Text, k: nat): (m: nat)
    requires k <= |t|
    ensures m <= |t|
  {
    var name := FirstName(u, t, k, u.names);
    if name.Some? then k + |name.value| else 0
  }

  /** Length of a tag up to its name at the start of `t`, or 0. */
  function StartLength(u: Pattern, t: Text): (m: nat)
    ensures m <= |t|
  {
    if t == [] || t[0] != LT then 0
    else
      var i := SkipSpaces(u, t, 1);
      var j := if i < |t| && t[i] == SLASH then i + 1 else i;
      NameEnd(u, t, SkipSpaces(u, t, j))
  }

  /** Just past the first `>` from `m` on, or 0. */
  function PastGt(t: Text, m: nat): (n: nat)
    requires m <= |t|
    ensures n > 0 ==> m < n <= |t| && t[n - 1] == GT && GT !in t[m..n - 1]
    ensures n == 0 ==> GT !in t[m..]
    decreases |t| - m
  {
    if m == |t| then 0
    else if t[m] == GT then m + 1
    else
      var n := PastGt(t, m + 1);
      assert t[m..] == [t[m]] + t[m + 1..];
      assert n > 0 ==> t[m..n - 1] == [t[m]] + t[m + 1..n - 1];
      n
  }

  /** Length of the match at the start of `t`, or 0. */
  function TagLength(u: Pattern, t: Text): (n: nat)
    ensures n <= |t|
  {
    var m := StartLength(u, t);
    if m == 0 || !Boundary(u, t, m) then 0 else PastGt(t, m)
  }

  function EscapeAngles(t: Text): Text {
    if t == [] then []
    else (if t[0] == LT then Lit("&lt;") else if t[0] == GT then Lit("&gt;") else [t[0]]) + EscapeAngles(t[1..])
  }

  /** `neutralize_delimiters`: leftmost matches, one after the other, each escaped. */
  function Neutralize(u: Pattern, t: Text): Text
    decreases |t|
  {
    if t == [] then []
    else
      var n := TagLength(u, t);
      if n > 0 then EscapeAngles(t[..n]) + Neutralize(u, t[n..]) else [t[0]] + Neutralize(u, t[1..])
  }

  // ---------------------------------------------------------------- the scanner finds what the pattern matches

  lemma NameIsLetters(u: Pattern, name: Text)
    requires Sane(u) && name in u.names
    ensures name != [] && forall i | 0 <= i < |name| :: TagLetter(name[i])
  {
  }

  lemma OneName(u: Pattern, t: Text, k: nat, name: Text, other: Text)
    requires Sane(u) && name in u.names && other in u.names
    requires k <= |t| && Spells(u, t, k, name) && Spells(u, t, k, other)
    ensures name == other
  {
    NameIsLetters(u, name);
    NameIsLetters(u, other);
    assert t[k..k + |other|][0] == t[k] == t[k..k + |name|][0];
  }

  /** A name that starts at `k` is the one `NameEnd` finds. */
  lemma NameEndFinds(u: Pattern, t: Text, k: nat, name: Text)
    requires Sane(u) && name in u.names && k <= |t| && Spells(u, t, k, name)
    ensures NameEnd(u, t, k) == k + |name|
  {
    OneName(u, t, k, name, FirstName(u, t, k, u.names).value);
  }

  lemma SkipFinds(u: Pattern, t: Text, i: nat, k: nat)
    requires i <= k <= |t| && AllSpace(u, t[i..k]) && (k == |t| || !u.space(t[k]))
    ensures SkipSpaces(u, t, i) == k
  {
    var x := SkipSpaces(u, t, i);
    assert forall y | i <= y < k :: t[i..k][y - i] == t[y];
    assert forall y | i <= y < x :: t[i..x][y - i] == t[y];
  }

  /** The name of a tag start begins with a letter, which is neither a space nor a slash. */
  lemma NameStarts(u: Pattern, h: Text, i: nat, j: nat, k: nat, name: Text)
    requires Sane(u) && StartParts(u, h, i, j, k, name)
    ensures k < |h| && !u.space(h[k]) && !Punctuation(h[k])
  {
    NameIsLetters(u, name);
    assert h[k..][0] == h[k];
  }

  lemma AllSpaceJoin(u: Pattern, a: Text, b: Text)
    requires AllSpace(u, a) && AllSpace(u, b)
    ensures AllSpace(u, a + b)
  {
  }

  /** The scanner's positions are the parts of the tag start. */
  lemma PartsFound(u: Pattern, t: Text, m: nat, i: nat, j: nat, k: nat, name: Text)
    requires Sane(u) && m <= |t| && StartParts(u, t[..m], i, j, k, name)
    ensures var i' := SkipSpaces(u, t, 1);
            var j' := if i' < |t| && t[i'] == SLASH then i' + 1 else i';
            SkipSpaces(u, t, j') == k
  {
    var h := t[..m];
    NameStarts(u, h, i, j, k, name);
    assert t[k] == h[k] && |h[i..j]| == j - i;
    SliceOfPrefix(t, m, 1, i);
    SliceOfPrefix(t, m, i, j);
    SliceOfPrefix(t, m, j, k);
    if i == j {
      WithoutSlash(u, t, i, k);
    } else {
      assert t[i..j][0] == t[i];
      WithSlash(u, t, i, k);
    }
  }

  lemma SliceOfPrefix(t: Text, m: nat, a: nat, b: nat)
    requires a <= b <= m <= |t|
    ensures t[..m][a..b] == t[a..b]
  {
  }

  lemma WithoutSlash(u: Pattern, t: Text, i: nat, k: nat)
    requires 1 <= i <= k < |t| && AllSpace(u, t[1..i]) && AllSpace(u, t[i..k]) && !u.space(t[k])
    ensures SkipSpaces(u, t, 1) == SkipSpaces(u, t, k) == k
  {
    AllSpaceJoin(u, t[1..i], t[i..k]);
    assert t[1..k] == t[1..i] + t[i..k];
    SkipFinds(u, t, 1, k);
    SkipFinds(u, t, k, k);
  }

  lemma WithSlash(u: Pattern, t: Text, i: nat, k: nat)
    requires Sane(u) && 1 <= i < k < |t| && t[i] == SLASH && !u.space(t[k])
    requires AllSpace(u, t[1..i]) && AllSpace(u, t[i + 1..k])
    ensures SkipSpaces(u, t, 1) == i && SkipSpaces(u, t, i + 1) == k
  {
    SkipFinds(u, t, 1, i);
    SkipFinds(u, t, i + 1, k);
  }

  lemma StartFound(u: Pattern, t: Text, m: nat)
    requires Sane(u) && m <= |t| && IsStart(u, t[..m])
    ensures StartLength(u, t) == m
  {
    var i: nat, j: nat, k: nat, name: Text :| StartParts(u, t[..m], i, j, k, name);
    PartsFound(u, t, m, i, j, k, name);
    assert t[k..k + |name|] == t[..m][k..];
    NameEndFinds(u, t, k, name);
  }

  lemma PartsMakeStart(u: Pattern, t: Text, i: nat, j: nat, k: nat, name: Text)
    requires 1 <= i <= j <= k <= |t| && t[0] == LT && AllSpace(u, t[1..i]) && AllSpace(u, t[j..k])
    requires j == i || (j == i + 1 && t[i] == SLASH)
    requires name in u.names && Spells(u, t, k, name)
    ensures IsStart(u, t[..k + |name|])
  {
    var h := t[..k + |name|];
    assert h[k..] == t[k..k + |name|] && h[1..i] == t[1..i] && h[j..k] == t[j..k];
    assert h[i..j] == [] || h[i..j] == [SLASH];
    assert StartParts(u, h, i, j, k, name);
  }

  lemma StartIsStart(u: Pattern, t: Text)
    requires StartLength(u, t) > 0
    ensures IsStart(u, t[..StartLength(u, t)])
  {
    var i := SkipSpaces(u, t, 1);
    var j := if i < |t| && t[i] == SLASH then i + 1 else i;
    var k := SkipSpaces(u, t, j);
    PartsMakeStart(u, t, i, j, k, FirstName(u, t, k, u.names).value);
  }

  /** The scanner's answer is the one match of the pattern at the start of the text. */
  lemma TagLengthExactly(u: Pattern, t: Text, n: nat)
    requires Sane(u)
    ensures IsTag(u, t, n) <==> n > 0 && TagLength(u, t) == n
  {
    if IsTag(u, t, n) {
      var m: nat :| TagParts(u, t, m, n);
      StartFound(u, t, m);
      PastGtFinds(t, m, n);
    }
    if n > 0 && TagLength(u, t) == n {
      StartIsStart(u, t);
      assert TagParts(u, t, StartLength(u, t), n);
    }
  }

  lemma {:induction false} PastGtFinds(t: Text, m: nat, n: nat)
    requires m < n <= |t| && t[n - 1] == GT && GT !in t[m..n - 1]
    ensures PastGt(t, m) == n
    decreases n - m
  {
    if m < n - 1 {
      assert t[m..n - 1][0] == t[m];
      assert t[m + 1..n - 1] == t[m..n - 1][1..];
      PastGtFinds(t, m + 1, n);
    }
  }

  // ---------------------------------------------------------------- the output is clean

  /** How many characters come before the first match. */
  function Gap(u: Pattern, t: Text): (g: nat)
    ensures g <= |t|
  {
    if t == [] || TagLength(u, t) > 0 then 0 else 1 + Gap(u, t[1..])
  }

  lemma {:induction false} EscapedHasNoAngles(t: Text)
    ensures LT !in EscapeAngles(t) && GT !in EscapeAngles(t)
    ensures t != [] && t[0] == LT ==> EscapeAngles(t) != [] && EscapeAngles(t)[0] == AMP
  {
    if t != [] { EscapedHasNoAngles(t[1..]); }
  }

  /** Input and output agree up to the first match; there the input has `<` and later `>`, the output `&`. */
  lemma {:induction false} GapAgrees(u: Pattern, t: Text)
    ensures var g, out := Gap(u, t), Neutralize(u, t);
            && g <= |out| && out[..g] == t[..g]
            && (g == |t| ==> |out| == g)
            && (g < |t| ==> t[g] == LT && GT in t[g..] && g < |out| && out[g] == AMP)
    decreases |t|
  {
    if t == [] {
    } else if TagLength(u, t) > 0 {
      var n := TagLength(u, t);
      EscapedHasNoAngles(t[..n]);
      assert t[n - 1] == GT && t[0..][n - 1] == GT;
      assert t[..n][0] == LT;
    } else {
      GapAgrees(u, t[1..]);
      var g := Gap(u, t[1..]);
      assert t[..g + 1] == [t[0]] + t[1..][..g];
      assert Neutralize(u, t)[..g + 1] == [t[0]] + Neutralize(u, t[1..])[..g];
      assert t[1..][g..] == t[g + 1..];
    }
  }

  /** The characters of a tag start are spaces, a slash and letters after the bracket. */
  lemma StartCharacters(u: Pattern, h: Text, x: nat)
    requires Sane(u) && IsStart(u, h) && 0 < x < |h|
    ensures h[x] != AMP && h[x] != LT && h[x] != GT
  {
    var i: nat, j: nat, k: nat, name: Text :| StartParts(u, h, i, j, k, name);
    NameIsLetters(u, name);
    if x < i { assert h[1..i][x - 1] == h[x]; }
    else if x < j { assert h[i..j][x - i] == h[x]; }
    else if x < k { assert h[j..k][x - j] == h[x]; }
    else { assert h[k..][x - k] == h[x]; }
  }

  lemma StartHasNoAmp(u: Pattern, h: Text)
    requires Sane(u) && IsStart(u, h)
    ensures AMP !in h
  {
    forall x | 0 <= x < |h| ensures h[x] != AMP {
      if x > 0 { StartCharacters(u, h, x); }
    }
  }

  /** Two texts that agree up to `g`, where only the second goes on with `&`. */
  predicate AgreeTo(inp: Text, out: Text, g: nat) {
    && g <= |inp| && g <= |out| && out[..g] == inp[..g]
    && (g == |inp| ==> g == |out|)
    && (g < |inp| ==> inp[g] == LT && g < |out| && out[g] == AMP && GT in inp[g..])
  }

  lemma SameStart(u: Pattern, inp: Text, out: Text, g: nat, m: nat)
    requires Sane(u) && AgreeTo(inp, out, g) && 0 < m <= |out| && IsStart(u, out[..m]) && Boundary(u, out, m)
    ensures m <= g && IsStart(u, inp[..m]) && Boundary(u, inp, m)
  {
    StartHasNoAmp(u, out[..m]);
    assert inp[..m] == inp[..g][..m] == out[..m];
    assert inp[m - 1] == inp[..m][m - 1] == out[m - 1];
    if m < g { assert inp[m] == inp[..g][m] == out[m]; }
  }

  lemma StillClosed(inp: Text, out: Text, g: nat, m: nat, n: nat)
    requires AgreeTo(inp, out, g) && m < n <= |out| && m <= g && out[n - 1] == GT
    ensures GT in inp[m..]
  {
    if n <= g {
      assert inp[n - 1] == inp[..g][n - 1] == GT;
      assert inp[m..][n - 1 - m] == GT;
    } else {
      var x: nat :| x < |inp[g..]| && inp[g..][x] == GT;
      assert inp[m..][g + x - m] == GT;
    }
  }

  lemma KeptAgrees(u: Pattern, c: Code, t: Text)
    ensures AgreeTo([c] + t, [c] + Neutralize(u, t), 1 + Gap(u, t))
  {
    GapAgrees(u, t);
    var g := Gap(u, t);
    var out, inp := [c] + Neutralize(u, t), [c] + t;
    assert out[..g + 1] == [c] + Neutralize(u, t)[..g] && inp[..g + 1] == [c] + t[..g];
    assert inp[g + 1..] == t[g..];
  }

  lemma MatchesInInput(u: Pattern, inp: Text, out: Text, g: nat, n: nat)
    requires Sane(u) && AgreeTo(inp, out, g) && IsTag(u, out, n)
    ensures exists n' :: IsTag(u, inp, n')
  {
    var m: nat :| TagParts(u, out, m, n);
    SameStart(u, inp, out, g, m);
    StillClosed(inp, out, g, m, n);
    assert TagParts(u, inp, m, PastGt(inp, m));
    assert IsTag(u, inp, PastGt(inp, m));
  }

  /** Whatever matches at a character that is kept already matched there in the input. */
  lemma KeptMatchesNothingNew(u: Pattern, c: Code, t: Text, n: nat)
    requires Sane(u) && IsTag(u, [c] + Neutralize(u, t), n)
    ensures exists n' :: IsTag(u, [c] + t, n')
  {
    KeptAgrees(u, c, t);
    MatchesInInput(u, [c] + t, [c] + Neutralize(u, t), 1 + Gap(u, t), n);
  }

  lemma CleanCons(u: Pattern, c: Code, t: Text)
    requires Sane(u) && TagLength(u, [c] + t) == 0 && Clean(u, Neutralize(u, t))
    ensures Clean(u, [c] + Neutralize(u, t))
  {
    NoTagInFront(u, c, t);
    CleanBehind(u, c, Neutralize(u, t));
  }

  lemma NoTagInFront(u: Pattern, c: Code, t: Text)
    requires Sane(u) && TagLength(u, [c] + t) == 0
    ensures NoTagAt(u, [c] + Neutralize(u, t))
  {
    forall n: nat ensures !IsTag(u, [c] + Neutralize(u, t), n) {
      if IsTag(u, [c] + Neutralize(u, t), n) {
        KeptMatchesNothingNew(u, c, t, n);
        var n' :| IsTag(u, [c] + t, n');
        TagLengthExactly(u, [c] + t, n');
      }
    }
  }

  /** No match starts with the text. */
  ghost predicate NoTagAt(u: Pattern, t: Text) { forall n: nat :: !IsTag(u, t, n) }

  lemma CleanBehind(u: Pattern, c: Code, t: Text)
    requires NoTagAt(u, [c] + t) && Clean(u, t)
    ensures Clean(u, [c] + t)
  {
    forall i: nat, n: nat | i <= 1 + |t| ensures !IsTag(u, ([c] + t)[i..], n) {
      if i > 0 {
        assert ([c] + t)[i..] == t[i - 1..];
      } else {
        assert ([c] + t)[0..] == [c] + t;
      }
    }
  }

  lemma CleanAfterEscaped(u: Pattern, a: Text, b: Text)
    requires LT !in a && Clean(u, b)
    ensures Clean(u, a + b)
  {
    forall i: nat, n: nat | i <= |a + b| ensures !IsTag(u, (a + b)[i..], n) {
      if i >= |a| {
        assert (a + b)[i..] == b[i - |a|..];
      } else {
        assert (a + b)[i..][0] == a[i];
        NoBracketNoTag(u, (a + b)[i..], n);
      }
    }
  }

  lemma NoBracketNoTag(u: Pattern, t: Text, n: nat)
    requires t == [] || t[0] != LT
    ensures !IsTag(u, t, n)
  {
  }

  /** The output has no match anywhere, not even across an escaped part. */
  lemma {:induction false} NeutralizeCleans(u: Pattern, t: Text)
    requires Sane(u)
    ensures Clean(u, Neutralize(u, t))
    decreases |t|
  {
    if t == [] {
      forall i: nat, n: nat | i <= 0 ensures !IsTag(u, [][i..], n) { NoBracketNoTag(u, [], n); }
    } else if TagLength(u, t) > 0 {
      NeutralizeCleans(u, t[TagLength(u, t)..]);
      EscapedHasNoAngles(t[..TagLength(u, t)]);
      CleanAfterEscaped(u, EscapeAngles(t[..TagLength(u, t)]), Neutralize(u, t[TagLength(u, t)..]));
    } else {
      NeutralizeCleans(u, t[1..]);
      assert t == [t[0]] + t[1..];
      CleanCons(u, t[0], t[1..]);
    }
  }

  lemma CleanSuffix(u: Pattern, t: Text, k: nat)
    requires Clean(u, t) && k <= |t|
    ensures Clean(u, t[k..])
  {
    forall i: nat, n: nat | i <= |t[k..]| ensures !IsTag(u, t[k..][i..], n) {
      assert t[k..][i..] == t[k + i..];
    }
  }

  lemma {:induction false} CleanStays(u: Pattern, t: Text)
    requires Sane(u) && Clean(u, t)
    ensures Neutralize(u, t) == t
    decreases |t|
  {
    if t != [] {
      assert t[0..] == t;
      TagLengthExactly(u, t, TagLength(u, t));
      CleanSuffix(u, t, 1);
      CleanStays(u, t[1..]);
    }
  }

  /** Text is left as it is exactly if it is clean; a second pass changes nothing. */
  lemma NeutralizeStable(u: Pattern, t: Text)
    requires Sane(u)
    ensures Neutralize(u, t) == t <==> Clean(u, t)
    ensures Neutralize(u, Neutralize(u, t)) == Neutralize(u, t)
  {
    NeutralizeCleans(u, t);
    CleanStays(u, Neutralize(u, t));
    if Clean(u, t) { CleanStays(u, t); }
  }

  // ---------------------------------------------------------------- what is kept

  /** A character outside every match, or a match. */
  datatype Piece = Kept(c: Code) | Matched(tag: Text)

  function Pieces(u: Pattern, t: Text): seq<Piece>
    decreases |t|
  {
    if t == [] then []
    else
      var n := TagLength(u, t);
      if n > 0 then [Matched(t[..n])] + Pieces(u, t[n..]) else [Kept(t[0])] + Pieces(u, t[1..])
  }

  function Original(pieces: seq<Piece>): Text {
    if pieces == [] then []
    else (match pieces[0] case Kept(c) => [c] case Matched(tag) => tag) + Original(pieces[1..])
  }

  function Escaped(pieces: seq<Piece>): Text {
    if pieces == [] then []
    else (match pieces[0] case Kept(c) => [c] case Matched(tag) => EscapeAngles(tag)) + Escaped(pieces[1..])
  }

  /** The input falls into characters and whole matches; the output keeps the characters as they are,
      and escapes the brackets of the matches. */
  lemma KeepsTheRest(u: Pattern, t: Text)
    requires Sane(u)
    ensures Original(Pieces(u, t)) == t && Escaped(Pieces(u, t)) == Neutralize(u, t)
    ensures forall p <- Pieces(u, t) :: p.Matched? ==> IsTag(u, p.tag, |p.tag|)
  {
    PiecesJoin(u, t);
    PiecesMatch(u, t);
  }

  lemma {:induction false} PiecesJoin(u: Pattern, t: Text)
    ensures Original(Pieces(u, t)) == t && Escaped(Pieces(u, t)) == Neutralize(u, t)
    decreases |t|
  {
    if t != [] {
      var n := TagLength(u, t);
      if n > 0 {
        PiecesJoin(u, t[n..]);
        assert t == t[..n] + t[n..];
        PieceFirst(Matched(t[..n]), Pieces(u, t[n..]));
      } else {
        PiecesJoin(u, t[1..]);
        assert t == [t[0]] + t[1..];
        PieceFirst(Kept(t[0]), Pieces(u, t[1..]));
      }
      PiecesStep(u, t);
    }
  }

  lemma PiecesStep(u: Pattern, t: Text)
    requires t != []
    ensures var n := TagLength(u, t);
            var first, k := if n > 0 then Matched(t[..n]) else Kept(t[0]), if n > 0 then n else 1;
            && Pieces(u, t) == [first] + Pieces(u, t[k..])
            && Neutralize(u, t)
                 == (match first case Kept(c) => [c] case Matched(tag) => EscapeAngles(tag)) + Neutralize(u, t[k..])
  {
  }

  lemma {:induction false} PiecesMatch(u: Pattern, t: Text)
    requires Sane(u)
    ensures forall p <- Pieces(u, t) :: p.Matched? ==> IsTag(u, p.tag, |p.tag|)
    decreases |t|
  {
    if t != [] {
      var n := TagLength(u, t);
      if n > 0 {
        PiecesMatch(u, t[n..]);
        TagLengthExactly(u, t, n);
        TagInPrefix(u, t, n, n);
        PieceFirst(Matched(t[..n]), Pieces(u, t[n..]));
      } else {
        PiecesMatch(u, t[1..]);
        PieceFirst(Kept(t[0]), Pieces(u, t[1..]));
      }
    }
  }

  lemma PieceFirst(p: Piece, rest: seq<Piece>)
    ensures Original([p] + rest) == (match p case Kept(c) => [c] case Matched(tag) => tag) + Original(rest)
    ensures Escaped([p] + rest) == (match p case Kept(c) => [c] case Matched(tag) => EscapeAngles(tag)) + Escaped(rest)
    ensures forall q <- [p] + rest :: q == p || q in rest
  {
    assert ([p] + rest)[1..] == rest;
  }

  // ---------------------------------------------------------------- cleanliness under cutting

  /** A match looks no further than its closing bracket. */
  lemma TagInPrefix(u: Pattern, t: Text, k: nat, n: nat)
    requires n <= k <= |t|
    ensures IsTag(u, t, n) <==> IsTag(u, t[..k], n)
  {
    if IsTag(u, t, n) {
      var m: nat :| TagParts(u, t, m, n);
      assert t[..k][..m] == t[..m] && t[..k][m..n - 1] == t[m..n - 1];
      assert TagParts(u, t[..k], m, n);
    }
    if IsTag(u, t[..k], n) {
      var m: nat :| TagParts(u, t[..k], m, n);
      assert t[..k][..m] == t[..m] && t[..k][m..n - 1] == t[m..n - 1];
      assert TagParts(u, t, m, n);
    }
  }

  /** A prefix of clean text is clean. */
  lemma CleanPrefix(u: Pattern, t: Text, k: nat)
    requires Clean(u, t) && k <= |t|
    ensures Clean(u, t[..k])
  {
    forall i: nat, n: nat | i <= k ensures !IsTag(u, t[..k][i..], n) {
      assert t[..k][i..] == t[i..][..k - i];
      if n <= k - i { TagInPrefix(u, t[i..], k - i, n); }
    }
  }

  /** Appending text without a closing bracket closes nothing. */
  lemma CleanAppend(u: Pattern, a: Text, b: Text)
    requires Clean(u, a) && GT !in b
    ensures Clean(u, a + b)
  {
    forall i: nat, n: nat | i <= |a + b| ensures !IsTag(u, (a + b)[i..], n) {
      if i < |a| && n <= |a| - i {
        assert (a + b)[i..][..|a| - i] == a[i..];
        TagInPrefix(u, (a + b)[i..], |a| - i, n);
      }
    }
  }

  // ---------------------------------------------------------------- nothing is lost

  const LESS: Text := [AMP, 108, 116, 59]
  const GREATER: Text := [AMP, 103, 116, 59]

  /** Reading the two escapes back as the brackets they stand for. */
  function Unescape(t: Text): Text
    decreases |t|
  {
    if LESS <= t then [LT] + Unescape(t[4..])
    else if GREATER <= t then [GT] + Unescape(t[4..])
    else if t == [] then []
    else [t[0]] + Unescape(t[1..])
  }

  /** The escaped form of one character. */
  function EscapedOne(c: Code): Text { if c == LT then LESS else if c == GT then GREATER else [c] }

  lemma AnglesCons(c: Code, t: Text)
    ensures EscapeAngles([c] + t) == EscapedOne(c) + EscapeAngles(t)
  {
    assert ([c] + t)[1..] == t;
    assert LESS == Lit("&lt;") && GREATER == Lit("&gt;");
  }

  lemma UnescapeLess(rest: Text)
    ensures Unescape(LESS + rest) == [LT] + Unescape(rest)
  {
    assert (LESS + rest)[4..] == rest;
  }

  lemma UnescapeGreater(rest: Text)
    ensures Unescape(GREATER + rest) == [GT] + Unescape(rest)
  {
    assert (GREATER + rest)[4..] == rest;
    assert (GREATER + rest)[1] != LESS[1];
  }

  lemma UnescapeKept(c: Code, rest: Text)
    requires c != AMP
    ensures Unescape([c] + rest) == [c] + Unescape(rest)
  {
    assert ([c] + rest)[0] == c && ([c] + rest)[1..] == rest;
  }

  /** One character, escaped or kept, reads back as itself. */
  lemma UnescapeOne(c: Code, rest: Text)
    requires c != AMP
    ensures Unescape(EscapedOne(c) + rest) == [c] + Unescape(rest)
  {
    UnescapeLess(rest);
    UnescapeGreater(rest);
    UnescapeKept(c, rest);
  }

  predicate NoAmp(t: Text) { forall i | 0 <= i < |t| :: t[i] != AMP }

  lemma {:induction false} AnglesReadBack(t: Text, rest: Text)
    requires NoAmp(t)
    ensures Unescape(EscapeAngles(t) + rest) == t + Unescape(rest)
  {
    if t == [] {
      assert EscapeAngles(t) + rest == rest;
    } else {
      AnglesReadBack(t[1..], rest);
      AnglesStep(t[0], t[1..], rest);
      assert t == [t[0]] + t[1..];
    }
  }

  lemma Associate(a: Text, b: Text, c: Text)
    ensures a + b + c == a + (b + c)
  {
  }

  lemma AnglesStep(c: Code, t: Text, rest: Text)
    requires c != AMP && Unescape(EscapeAngles(t) + rest) == t + Unescape(rest)
    ensures Unescape(EscapeAngles([c] + t) + rest) == [c] + t + Unescape(rest)
  {
    var one, angles := EscapedOne(c), EscapeAngles(t);
    calc {
      Unescape(EscapeAngles([c] + t) + rest);
    == { AnglesCons(c, t); }
      Unescape(one + angles + rest);
    == { Associate(one, angles, rest); }
      Unescape(one + (angles + rest));
    == { UnescapeOne(c, angles + rest); }
      [c] + (t + Unescape(rest));
    == { Associate([c], t, Unescape(rest)); }
      [c] + t + Unescape(rest);
    }
  }

  lemma NoAmpSlices(t: Text, k: nat)
    requires NoAmp(t) && k <= |t|
    ensures NoAmp(t[..k]) && NoAmp(t[k..])
  {
    assert forall i | 0 <= i < |t| - k :: t[k..][i] == t[k + i];
  }

  predicate ReadsBack(u: Pattern, t: Text) { Unescape(Neutralize(u, t)) == t }

  lemma TagReadsBack(u: Pattern, t: Text, n: nat)
    requires 0 < n == TagLength(u, t) && NoAmp(t[..n]) && ReadsBack(u, t[n..])
    ensures ReadsBack(u, t)
  {
    var rest := Neutralize(u, t[n..]);
    assert Neutralize(u, t) == EscapeAngles(t[..n]) + rest;
    AnglesReadBack(t[..n], rest);
    assert t == t[..n] + t[n..];
  }

  lemma KeptReadsBack(u: Pattern, t: Text)
    requires t != [] && TagLength(u, t) == 0 && t[0] != AMP && ReadsBack(u, t[1..])
    ensures ReadsBack(u, t)
  {
    var rest := Neutralize(u, t[1..]);
    assert Neutralize(u, t) == [t[0]] + rest;
    UnescapeKept(t[0], rest);
    assert t == [t[0]] + t[1..];
  }

  /** From the sanitized form of a text without ampersands the text can be read back. */
  lemma {:induction false} NeutralizeReadsBack(u: Pattern, t: Text)
    requires NoAmp(t)
    ensures ReadsBack(u, t)
    decreases |t|
  {
    if t != [] {
      var k := if TagLength(u, t) > 0 then TagLength(u, t) else 1;
      NoAmpSlices(t, k);
      NeutralizeReadsBack(u, t[k..]);
      if TagLength(u, t) > 0 { TagReadsBack(u, t, k); } else { KeptReadsBack(u, t); }
    }
  }
}
