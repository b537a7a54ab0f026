/** `split_for_slack`: a text as chunks of about `limit` characters that break after newlines where they can. */
module SlackChunks {
  import opened Prelude

  datatype BadLimit = BadLimit

  /** `text.rfind("\n", lo, hi)`. */
  function RFindNewline(text: string, lo: nat, hi: nat): (k: int)
    requires lo <= hi <= |text|
    ensures k == -1 || (lo <= k < hi && text[k] == '\n')
    ensures forall j | lo <= j < hi && j > k :: text[j] != '\n'
  {
    if lo == hi then -1 else if text[hi - 1] == '\n' then hi - 1 else RFindNewline(text, lo, hi - 1)
  }

  /** Where the chunk that begins at `start` ends.  The newline is searched for through index
      `start + limit` inclusive, so a chunk may have `limit + 1` characters, the last one a newline. */
  function ChunkEnd(text: string, start: nat, limit: nat): (end: nat)
    requires start < |text| && limit > 0
    ensures start < end <= |text|
  {
    var end := if start + limit <= |text| then start + limit else |text|;
    if end < |text| then
      var newline := RFindNewline(text, start, end + 1);
      if newline > start then newline + 1 else end
    else end
  }

  /** The chunks of `text[start..]`. */
  function Chunks(text: string, start: nat, limit: nat): seq<string>
    requires start <= |text| && limit > 0
    decreases |text| - start
  {
    if start == |text| then []
    else [text[start..ChunkEnd(text, start, limit)]] + Chunks(text, ChunkEnd(text, start, limit), limit)
  }

  function SplitForSlack(text: string, limit: int): Result<seq<string>, BadLimit> {
    if limit < 1 then Err(BadLimit) else if text == "" then Ok([""]) else Ok(Chunks(text, 0, limit))
  }

  /** The loop of `split_for_slack`. */
  method Split(text: string, limit: int) returns (r: Result<seq<string>, BadLimit>)
    ensures r == SplitForSlack(text, limit)
    ensures r.Ok? ==> limit > 0 && SplitsText(text, limit, r.value)
  {
    if limit < 1 { return Err(BadLimit); }
    SplitPromise(text, limit);
    if text == "" { return Ok([""]); }
    var chunks := Loop(text, limit);
    return Ok(chunks);
  }

  method Loop(text: string, limit: nat) returns (chunks: seq<string>)
    requires limit > 0
    ensures chunks == Chunks(text, 0, limit)
  {
    var start := 0;
    chunks := [];
    while start < |text|
      invariant 0 <= start <= |text|
      invariant chunks + Chunks(text, start, limit) == Chunks(text, 0, limit)
    {
      var end := if start + limit <= |text| then start + limit else |text|;
      if end < |text| {
        var newline := RFindNewline(text, start, end + 1);
        if newline > start { end := newline + 1; }
      }
      assert end == ChunkEnd(text, start, limit);
      chunks := chunks + [text[start..end]];
      start := end;
    }
    assert chunks + Chunks(text, start, limit) == chunks;
  }

  function Join(chunks: seq<string>): string {
    if chunks == [] then "" else chunks[0] + Join(chunks[1..])
  }

  /** The chunks, put back together, are the text. */
  lemma {:induction false} ChunksJoin(text: string, start: nat, limit: nat)
    requires start <= |text| && limit > 0
    ensures Join(Chunks(text, start, limit)) == text[start..]
    decreases |text| - start
  {
    if start < |text| {
      var end := ChunkEnd(text, start, limit);
      ChunksJoin(text, end, limit);
      assert Chunks(text, start, limit)[1..] == Chunks(text, end, limit);
      assert text[start..end] + text[end..] == text[start..];
    }
  }

  /** At most `limit` characters, and possibly one final newline more. */
  predicate FitsLimit(chunk: string, limit: nat) {
    && 0 < |chunk| <= limit + 1
    && (|chunk| == limit + 1 ==> chunk[limit] == '\n')
  }

  /** A chunk that is not the last breaks after a newline, or for want of one is exactly full. */
  predicate BreaksWell(chunk: string, limit: nat) {
    |chunk| == limit || (chunk != "" && chunk[|chunk| - 1] == '\n')
  }

  ghost predicate WellSplit(chunks: seq<string>, limit: nat) {
    && (forall i | 0 <= i < |chunks| :: FitsLimit(chunks[i], limit))
    && (forall i | 0 <= i < |chunks| - 1 :: BreaksWell(chunks[i], limit))
    && (forall i | 0 <= i < |chunks| - 1 :: |chunks[i]| + |chunks[i + 1]| > limit)
  }

  /** A chunk cut short at a newline is followed by one that reaches past where it could have ended. */
  lemma NextReachesFar(text: string, start: nat, limit: nat)
    requires start < |text| && limit > 0 && ChunkEnd(text, start, limit) < |text|
    ensures var end := ChunkEnd(text, start, limit); ChunkEnd(text, end, limit) > start + limit
  {
    var end := ChunkEnd(text, start, limit);
    if end < start + limit {
      var newline := RFindNewline(text, end, if end + limit < |text| then end + limit + 1 else |text|);
      assert newline != -1 ==> newline > start + limit;
    }
  }

  lemma {:induction false} ChunksWellSplit(text: string, start: nat, limit: nat)
    requires start <= |text| && limit > 0
    ensures WellSplit(Chunks(text, start, limit), limit)
    decreases |text| - start
  {
    if start < |text| {
      var end := ChunkEnd(text, start, limit);
      ChunksWellSplit(text, end, limit);
      var rest := Chunks(text, end, limit);
      var chunks := Chunks(text, start, limit);
      assert chunks == [text[start..end]] + rest;
      if end < |text| {
        NextReachesFar(text, start, limit);
        assert |rest[0]| == ChunkEnd(text, end, limit) - end;
      }
      forall i | 0 <= i < |chunks| - 1
        ensures BreaksWell(chunks[i], limit) && |chunks[i]| + |chunks[i + 1]| > limit
      {
        if i > 0 { assert chunks[i] == rest[i - 1] && chunks[i + 1] == rest[i]; }
      }
    }
  }

  /** Two neighbours hold more than `limit`, so half the chunks hold that much each. */
  lemma {:induction false} PairsAreLong(chunks: seq<string>, limit: nat)
    requires forall i | 0 <= i < |chunks| - 1 :: |chunks[i]| + |chunks[i + 1]| > limit
    ensures |Join(chunks)| >= |chunks| / 2 * (limit + 1)
  {
    if |chunks| >= 2 {
      PairsAreLong(chunks[2..], limit);
      assert chunks[1..][1..] == chunks[2..];
      assert Join(chunks) == chunks[0] + (chunks[1] + Join(chunks[2..]));
      assert |chunks| / 2 == 1 + |chunks[2..]| / 2;
      assert |chunks| / 2 * (limit + 1) == (limit + 1) + |chunks[2..]| / 2 * (limit + 1);
    }
  }

  lemma TimesPositive(x: int, d: nat)
    ensures x >= 1 ==> x * d >= d
  {
    if x >= 1 { assert x * d == (x - 1) * d + d; }
  }

  lemma DivideBound(m: nat, n: nat, d: nat)
    requires d > 0 && m * d <= n
    ensures m <= n / d
  {
    var q := n / d;
    assert n - q * d < d;
    assert (m - q) * d == m * d - q * d;
    TimesPositive(m - q, d);
  }

  // ---------------------------------------------------------------- when the limit is kept

  predicate NewlineAt(text: string, i: nat) { i < |text| && text[i] == '\n' }

  /** A chunk is over the limit exactly if a newline stands `limit` characters after its start. */
  lemma ChunkEndExactly(text: string, start: nat, limit: nat)
    requires start < |text| && limit > 0
    ensures ChunkEnd(text, start, limit) - start > limit <==> NewlineAt(text, start + limit)
    ensures ChunkEnd(text, start, limit) - start <= limit + 1
  {
  }

  predicate KeepLimit(chunks: seq<string>, limit: nat) { forall chunk <- chunks :: |chunk| <= limit }

  /** Where chunk `k` starts in the text. */
  function StartOf(chunks: seq<string>, k: nat): nat
    requires k <= |chunks|
  {
    |Join(chunks[..k])|
  }

  /** No chunk, the first one starting at `base`, starts `limit` characters before a newline. */
  predicate NoneBeforeNewline(text: string, base: nat, chunks: seq<string>, limit: nat) {
    forall k | 0 <= k < |chunks| :: !NewlineAt(text, base + StartOf(chunks, k) + limit)
  }

  lemma {:induction false} StartsExactly(text: string, start: nat, limit: nat)
    requires start <= |text| && limit > 0
    ensures var chunks := Chunks(text, start, limit);
            KeepLimit(chunks, limit) <==> NoneBeforeNewline(text, start, chunks, limit)
    decreases |text| - start
  {
    if start < |text| {
      var end := ChunkEnd(text, start, limit);
      var rest := Chunks(text, end, limit);
      StartsExactly(text, end, limit);
      ChunkEndExactly(text, start, limit);
      KeepCons(text[start..end], rest, limit);
      NoneCons(text, start, text[start..end], rest, limit);
    }
  }

  lemma NoneCons(text: string, base: nat, chunk: string, rest: seq<string>, limit: nat)
    ensures NoneBeforeNewline(text, base, [chunk] + rest, limit)
       <==> !NewlineAt(text, base + limit) && NoneBeforeNewline(text, base + |chunk|, rest, limit)
  {
    var chunks := [chunk] + rest;
    assert StartOf(chunks, 0) == 0;
    forall k | 0 <= k < |rest| ensures StartOf(chunks, k + 1) == |chunk| + StartOf(rest, k) {
      StartCons(chunk, rest, k);
    }
    if NoneBeforeNewline(text, base, chunks, limit) {
      forall k | 0 <= k < |rest| ensures !NewlineAt(text, base + |chunk| + StartOf(rest, k) + limit) {
        assert !NewlineAt(text, base + StartOf(chunks, k + 1) + limit);
      }
    }
    if !NewlineAt(text, base + limit) && NoneBeforeNewline(text, base + |chunk|, rest, limit) {
      forall k | 0 <= k < |chunks| ensures !NewlineAt(text, base + StartOf(chunks, k) + limit) {
        if k > 0 { assert !NewlineAt(text, base + |chunk| + StartOf(rest, k - 1) + limit); }
      }
    }
  }

  lemma KeepCons(chunk: string, rest: seq<string>, limit: nat)
    ensures KeepLimit([chunk] + rest, limit) <==> |chunk| <= limit && KeepLimit(rest, limit)
  {
    assert chunk in [chunk] + rest;
    assert forall c <- rest :: c in [chunk] + rest;
  }

  lemma StartCons(chunk: string, rest: seq<string>, k: nat)
    requires k <= |rest|
    ensures StartOf([chunk] + rest, k + 1) == |chunk| + StartOf(rest, k)
  {
    assert ([chunk] + rest)[..k + 1] == [chunk] + rest[..k];
    assert ([chunk] + rest[..k])[1..] == rest[..k];
  }

  /** Every chunk keeps the limit if and only if no chunk starts `limit` characters before a newline. */
  lemma LimitKeptExactly(text: string, limit: int)
    requires limit >= 1
    ensures var chunks := SplitForSlack(text, limit).value;
            KeepLimit(chunks, limit) <==> NoneBeforeNewline(text, 0, chunks, limit)
  {
    if text != "" {
      StartsExactly(text, 0, limit);
    }
  }

  /** A chunk from `start` to `end` is the rest of the text if that is no longer than `limit`; otherwise it
      ends just past the last newline at an index in (`start`, `start + limit`], or for want of one is full. */
  predicate EndsRight(text: string, start: nat, end: nat, limit: nat) {
    && start < end <= |text|
    && if start + limit >= |text| then end == |text|
       else if forall i | start < i <= start + limit :: text[i] != '\n' then end == start + limit
       else start + 1 < end <= start + limit + 1 && text[end - 1] == '\n'
            && forall i | end <= i <= start + limit :: text[i] != '\n'
  }

  /** Where a chunk ends is fixed by the text and by where it starts. */
  lemma ChunkEndsRight(text: string, start: nat, limit: nat, end: nat)
    requires start < |text| && limit > 0
    ensures EndsRight(text, start, end, limit) <==> end == ChunkEnd(text, start, limit)
  {
    if start + limit < |text| {
      var newline := RFindNewline(text, start, start + limit + 1);
      if newline > start {
        assert text[newline] == '\n';
      }
    }
  }

  /** Every chunk, the first one starting at `base`, ends where it should. */
  predicate AllEndRight(text: string, base: nat, chunks: seq<string>, limit: nat) {
    forall k | 0 <= k < |chunks| ::
      EndsRight(text, base + StartOf(chunks, k), base + StartOf(chunks, k + 1), limit)
  }

  lemma EndRightCons(text: string, base: nat, chunk: string, rest: seq<string>, limit: nat)
    requires EndsRight(text, base, base + |chunk|, limit) && AllEndRight(text, base + |chunk|, rest, limit)
    ensures AllEndRight(text, base, [chunk] + rest, limit)
  {
    var chunks := [chunk] + rest;
    assert StartOf(chunks, 0) == 0;
    forall k | 0 <= k < |chunks|
      ensures EndsRight(text, base + StartOf(chunks, k), base + StartOf(chunks, k + 1), limit)
    {
      StartCons(chunk, rest, k);
      if k > 0 {
        StartCons(chunk, rest, k - 1);
        assert EndsRight(text, base + |chunk| + StartOf(rest, k - 1), base + |chunk| + StartOf(rest, k), limit);
      } else {
        assert StartOf(rest, 0) == 0;
      }
    }
  }

  lemma {:induction false} ChunksEndRight(text: string, start: nat, limit: nat)
    requires start <= |text| && limit > 0
    ensures AllEndRight(text, start, Chunks(text, start, limit), limit)
    decreases |text| - start
  {
    if start < |text| {
      var end := ChunkEnd(text, start, limit);
      ChunkEndsRight(text, start, limit, end);
      ChunksEndRight(text, end, limit);
      EndRightCons(text, start, text[start..end], Chunks(text, end, limit), limit);
    }
  }

  lemma FewChunks(chunks: seq<string>, n: nat, limit: nat)
    requires WellSplit(chunks, limit) && |Join(chunks)| == n
    ensures |chunks| <= 2 * (n / (limit + 1)) + 1
  {
    PairsAreLong(chunks, limit);
    DivideBound(|chunks| / 2, n, limit + 1);
  }

  /** Splitting loses nothing, breaks after the last newline it can reach, goes over the limit exactly
      where a newline stands just past it, and makes at most about twice as many chunks as needed. */
  lemma SplitTheorem(text: string, limit: int)
    ensures SplitForSlack(text, limit).Err? <==> limit < 1
    ensures limit >= 1 ==>
              var chunks := SplitForSlack(text, limit).value;
              && Join(chunks) == text && chunks != []
              && (text != "" ==> WellSplit(chunks, limit) && AllEndRight(text, 0, chunks, limit))
              && (KeepLimit(chunks, limit) <==> NoneBeforeNewline(text, 0, chunks, limit))
              && |chunks| <= 2 * (|text| / (limit + 1)) + 1
  {
    if limit >= 1 {
      LimitKeptExactly(text, limit);
      if text != "" {
        ChunksJoin(text, 0, limit);
        assert text[0..] == text;
        ChunksWellSplit(text, 0, limit);
        ChunksEndRight(text, 0, limit);
        FewChunks(Chunks(text, 0, limit), |text|, limit);
      } else {
        assert 0 / (limit + 1) == 0;
      }
    }
  }

  /** The chunks join to the text, and each ends where the text says. */
  predicate SplitsText(text: string, limit: nat, chunks: seq<string>) {
    Join(chunks) == text && (text != "" ==> AllEndRight(text, 0, chunks, limit))
  }

  lemma SplitPromise(text: string, limit: nat)
    requires limit > 0
    ensures SplitsText(text, limit, SplitForSlack(text, limit).value)
  {
    SplitTheorem(text, limit);
  }

  /** Seen from the text alone: without a newline from index `limit` on, every chunk keeps the limit. */
  lemma LimitKept(text: string, limit: int)
    requires limit >= 1 && forall i | limit <= i < |text| :: text[i] != '\n'
    ensures KeepLimit(SplitForSlack(text, limit).value, limit)
  {
    LimitKeptExactly(text, limit);
  }

  /** And with one newline only, the limit is kept unless a positive multiple of it is where the newline is. */
  lemma OneNewline(text: string, limit: int, p: nat)
    requires limit >= 1 && p < |text| && forall i | 0 <= i < |text| :: text[i] == '\n' <==> i == p
    ensures KeepLimit(SplitForSlack(text, limit).value, limit) <==> p == 0 || p % limit != 0
  {
    OneNewlineFrom(text, 0, limit, p);
    MultipleIsModulo(p, limit);
  }

  predicate Multiple(x: nat, d: nat)
    requires d > 0
  {
    if x < d then x == 0 else Multiple(x - d, d)
  }

  lemma {:induction false} OneNewlineFrom(text: string, start: nat, limit: nat, p: nat)
    requires limit > 0 && start <= p < |text| && forall i | 0 <= i < |text| :: text[i] == '\n' <==> i == p
    ensures KeepLimit(Chunks(text, start, limit), limit) <==> p == start || !Multiple(p - start, limit)
    decreases |text| - start
  {
    var end := ChunkEnd(text, start, limit);
    KeepCons(text[start..end], Chunks(text, end, limit), limit);
    ChunkEndExactly(text, start, limit);
    if p - start > limit {
      OneNewlineFrom(text, end, limit, p);
    } else if p - start < limit {
      StartsExactly(text, end, limit);
    }
  }

  lemma {:induction false} MultipleIsModulo(x: nat, d: nat)
    requires d > 0
    ensures Multiple(x, d) <==> x % d == 0
    decreases x
  {
    if x >= d {
      MultipleIsModulo(x - d, d);
      RemainderUnique(x, d, (x - d) / d + 1, (x - d) % d);
    }
  }

  lemma RemainderUnique(x: int, d: int, q: int, r: int)
    requires d > 0 && x == q * d + r && 0 <= r < d
    ensures x % d == r
  {
    var difference := q - x / d;
    assert difference * d == x % d - r;
    TimesPositive(difference, d);
    TimesPositive(-difference, d);
  }

  /** A chunk over the limit. */
  lemma OverLimit()
    ensures SplitForSlack("ab\nc", 2) == Ok(["ab\n", "c"]) && !KeepLimit(["ab\n", "c"], 2)
  {
    var text := "ab\nc";
    assert RFindNewline(text, 0, 3) == 2;
    assert text[0..3] == "ab\n" && text[3..4] == "c";
    assert Chunks(text, 4, 2) == [];
    assert Chunks(text, 3, 2) == ["c"];
    KeepCons("ab\n", ["c"], 2);
    assert ["ab\n"] + ["c"] == ["ab\n", "c"] && |"ab\n"| == 3;
  }
}
