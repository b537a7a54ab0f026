/** Reading back the strings that `json.dumps` prints: RFC 8259 section 7. */
module JsonStrings {
  import opened Prelude
  import opened Text
  import opened Json

  function HexValue(c: Code): Option<nat> {
    if 48 <= c <= 57 then Some(c - 48)
    else if 65 <= c <= 70 then Some(c - 55)
    else if 97 <= c <= 102 then Some(c - 87)
    else None
  }

  /** The code that an escape with four hexadecimal digits stands for. */
  function HexCode(t: Text): Option<Code>
    requires |t| == 4
  {
    var a, b, c, d := HexValue(t[0]), HexValue(t[1]), HexValue(t[2]), HexValue(t[3]);
    if a.None? || b.None? || c.None? || d.None? then None
    else if a.value > 15 || b.value > 15 || c.value > 15 || d.value > 15 then None
    else Some(((a.value * 16 + b.value) * 16 + c.value) * 16 + d.value)
  }

  /** The code that a letter after a backslash stands for. */
  function LetterCode(c: Code): Option<Code> {
    if c == 34 || c == 47 || c == 92 then Some(c)
    else if c == 98 then Some(8)
    else if c == 102 then Some(12)
    else if c == 110 then Some(10)
    else if c == 114 then Some(13)
    else if c == 116 then Some(9)
    else None
  }

  /** One character of a string, and what follows it. */
  function ReadCode(t: Text): Option<(Code, Text)> {
    if t == [] || t[0] < 0x20 || t[0] == QUOTE then None
    else if t[0] != BACKSLASH then Some((t[0], t[1..]))
    else if |t| >= 6 && t[1] == 117 then
      (match HexCode(t[2..6]) case None => None case Some(c) => Some((c, t[6..])))
    else if |t| >= 2 then
      (match LetterCode(t[1]) case None => None case Some(c) => Some((c, t[2..])))
    else None
  }

  /** The characters of a string up to its closing quote, and what follows that. */
  function ReadCodes(t: Text): Option<(Text, Text)>
    decreases |t|
  {
    if t != [] && t[0] == QUOTE then Some(([], t[1..]))
    else
      match ReadCode(t)
      case None => None
      case Some((c, rest)) =>
        if |rest| >= |t| then None
        else match ReadCodes(rest) case None => None case Some((codes, after)) => Some(([c] + codes, after))
  }

  /** A string in quotes, and what follows it. */
  function ReadString(t: Text): Option<(Text, Text)> {
    if t == [] || t[0] != QUOTE then None else ReadCodes(t[1..])
  }

  lemma HexReadsBack(d: nat)
    requires d < 16
    ensures HexValue(HexDigit(d)) == Some(d)
  {
  }

  lemma ControlReadsBack(c: Code, rest: Text)
    requires c < 0x20 && |EscapeCode(c)| == 6
    ensures ReadCode(EscapeCode(c) + rest) == Some((c, rest))
  {
    var t := EscapeCode(c) + rest;
    HexReadsBack(c / 16);
    HexReadsBack(c % 16);
    HexReadsBack(0);
    assert t[2..6] == [ZERO, ZERO, HexDigit(c / 16), HexDigit(c % 16)];
    assert t[6..] == rest;
  }

  lemma CodeReadsBack(c: Code, rest: Text)
    ensures ReadCode(EscapeCode(c) + rest) == Some((c, rest))
    ensures (EscapeCode(c) + rest)[0] != QUOTE
  {
    var t := EscapeCode(c) + rest;
    if |EscapeCode(c)| == 6 {
      ControlReadsBack(c, rest);
    } else if |EscapeCode(c)| == 2 {
      assert t[0] == BACKSLASH && t[1] == EscapeCode(c)[1] && t[2..] == rest;
    } else {
      assert t[0] == c && t[1..] == rest;
    }
  }

  lemma {:induction false} CodesReadBack(s: Text, rest: Text)
    ensures ReadCodes(Escape(s) + [QUOTE] + rest) == Some((s, rest))
  {
    if s == [] {
      assert Escape(s) + [QUOTE] + rest == [QUOTE] + rest && ([QUOTE] + rest)[1..] == rest;
    } else {
      var tail := Escape(s[1..]) + [QUOTE] + rest;
      CodesReadBack(s[1..], rest);
      CodeReadsBack(s[0], tail);
      assert Escape(s) + [QUOTE] + rest == EscapeCode(s[0]) + tail;
      assert [s[0]] + s[1..] == s;
    }
  }

  /** Every string, whatever its characters, is read back from what is printed for it. */
  lemma QuotedReadsBack(s: Text, rest: Text)
    ensures ReadString(Quoted(s) + rest) == Some((s, rest))
  {
    CodesReadBack(s, rest);
    assert (Quoted(s) + rest)[1..] == Escape(s) + [QUOTE] + rest;
  }
}
