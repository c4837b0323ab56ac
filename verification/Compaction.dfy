/**
 History compaction: one call, and any sequence of calls.

 A message is its text. Utilization is an exact real.
 */
module Compaction {
  import opened Decimals

  const CHARS_PER_TOKEN := 4.0
  const KEPT: nat := 200
  const OPENING := "[compacted: "

  function TotalChars(messages: seq<string>): nat {
    if messages == [] then 0 else |messages[0]| + TotalChars(messages[1..])
  }

  function UtilizationOf(totalChars: nat, maxContextTokens: int): real {
    if maxContextTokens == 0 then 0.0
    else (totalChars as real / CHARS_PER_TOKEN) / maxContextTokens as real
  }

  function Utilization(messages: seq<string>, maxContextTokens: int): real {
    UtilizationOf(TotalChars(messages), maxContextTokens)
  }

  /** What the threshold means in characters: four to a token of the window. No window counts as empty, and a
      negative one turns the comparison around. */
  lemma UnderTheThreshold(messages: seq<string>, threshold: real, maxContextTokens: int)
    ensures var chars, limit := TotalChars(messages) as real, threshold * (4 * maxContextTokens) as real;
            Utilization(messages, maxContextTokens) < threshold <==>
            if maxContextTokens > 0 then chars < limit
            else if maxContextTokens == 0 then 0.0 < threshold
            else chars > limit
  {
    if maxContextTokens != 0 {
      CharsAgainstLimit(TotalChars(messages) as real, threshold, maxContextTokens as real);
      assert (4 * maxContextTokens) as real == 4.0 * maxContextTokens as real;
    }
  }

  lemma CharsAgainstLimit(chars: real, threshold: real, m: real)
    requires m != 0.0
    ensures (chars / 4.0) / m < threshold <==>
            if m > 0.0 then chars < threshold * (4.0 * m) else chars > threshold * (4.0 * m)
  {
    var u := (chars / 4.0) / m;
    assert chars == 4.0 * (u * m);
    assert threshold * (4.0 * m) == 4.0 * (threshold * m);
    Scaled(u, threshold, if m > 0.0 then m else -m);
  }

  lemma Scaled(x: real, y: real, m: real)
    requires m > 0.0
    ensures x < y <==> x * m < y * m
  {
    if x < y {
      assert (y - x) * m > 0.0;
    } else if y < x {
      assert (x - y) * m > 0.0;
    }
  }

  function Marker(text: string): (s: string)
    requires |text| > KEPT
    ensures |s| == 235 + |Decimal(|text|)|
  {
    OPENING + text[..KEPT] + "... (" + Decimal(|text|) + " chars truncated)]"
  }

  /** A marker keeps the first 200 characters of its message and says how long the message was. */
  lemma MarkerSays(text: string) returns (numeral: string)
    requires |text| > 200
    ensures Marker(text) == "[compacted: " + text[..200] + "... (" + numeral + " chars truncated)]"
    ensures ValueOf(numeral) == |text| && forall c <- numeral :: '0' <= c <= '9'
  {
    numeral := Decimal(|text|);
    DecimalReadsBack(|text|);
  }

  /** Whether a history is at or over the threshold. */
  type Gauge = seq<string> -> bool

  function AtOrOver(threshold: real, maxContextTokens: int): Gauge {
    (messages: seq<string>) => Utilization(messages, maxContextTokens) >= threshold
  }

  /** What compact_history returns, `over` being AtOrOver its limits. */
  function Compacted(messages: seq<string>, over: Gauge): seq<string>
    decreases |messages|
  {
    if |messages| > 1 && over(messages) then
      if |messages[0]| > KEPT then [Marker(messages[0])] + messages[1..]
      else Compacted(messages[1..], over)
    else messages
  }

  method EstimateUtilization(messages: seq<string>, maxContextTokens: int) returns (u: real)
    ensures u == Utilization(messages, maxContextTokens)
  {
    if maxContextTokens == 0 {
      return 0.0;
    }
    var totalChars := 0;
    for i := 0 to |messages|
      invariant totalChars + TotalChars(messages[i..]) == TotalChars(messages)
    {
      totalChars := totalChars + |messages[i]|;
      assert messages[i..][1..] == messages[i + 1..];
    }
    assert messages[|messages|..] == [];
    u := (totalChars as real / CHARS_PER_TOKEN) / maxContextTokens as real;
  }

  method CompactHistory(messages: seq<string>, threshold: real, maxContextTokens: int) returns (compacted: seq<string>)
    ensures compacted == Compacted(messages, AtOrOver(threshold, maxContextTokens))
  {
    compacted := messages;
    var u := EstimateUtilization(messages, maxContextTokens);
    if u < threshold {
      return;
    }
    while |compacted| > 1 && u >= threshold
      invariant u == Utilization(compacted, maxContextTokens)
      invariant Compacted(compacted, AtOrOver(threshold, maxContextTokens)) ==
                Compacted(messages, AtOrOver(threshold, maxContextTokens))
      decreases |compacted|
    {
      var text := compacted[0];
      if |text| > KEPT {
        compacted := compacted[0 := Marker(text)];
        break;
      }
      compacted := compacted[1..];
      u := EstimateUtilization(compacted, maxContextTokens);
    }
  }

  // ---------------------------------------------------------------- one call

  /** `r` is `messages` without its first k, all short and all dropped while still at or over the threshold;
      then either nothing more was to do, or the next message was long and gave way to its marker. */
  ghost predicate IsCompaction(messages: seq<string>, over: Gauge, k: nat, r: seq<string>) {
    k <= |messages| && Dropped(messages, over, k) && Left(messages, over, k, r)
  }

  ghost predicate Dropped(messages: seq<string>, over: Gauge, k: nat) {
    forall i :: 0 <= i < k ==> DroppedAt(messages, over, i)
  }

  /** Message i is short and not the last, and the history that begins with it is over. */
  ghost predicate DroppedAt(messages: seq<string>, over: Gauge, i: int) {
    0 <= i < |messages| - 1 && |messages[i]| <= KEPT && over(messages[i..])
  }

  ghost predicate Left(messages: seq<string>, over: Gauge, k: nat, r: seq<string>)
    requires k <= |messages|
  {
    if Kept(messages, over, k) then r == messages[k..] else
      k + 1 < |messages| && |messages[k]| > KEPT && r == [Marker(messages[k])] + messages[k + 1..]
  }

  ghost predicate Kept(messages: seq<string>, over: Gauge, k: nat)
    requires k <= |messages|
  {
    |messages| - k <= 1 || !over(messages[k..])
  }

  lemma LeftOfTail(messages: seq<string>, over: Gauge, k: nat, r: seq<string>)
    requires k + 1 <= |messages|
    ensures Left(messages[1..], over, k, r) <==> Left(messages, over, k + 1, r)
  {
    var rest := messages[1..];
    assert rest[k..] == messages[k + 1..];
    assert Kept(rest, over, k) <==> Kept(messages, over, k + 1);
    if k + 1 < |messages| {
      assert rest[k] == messages[k + 1] && rest[k + 1..] == messages[k + 1 + 1..];
    }
  }

  lemma DroppedOfTail(messages: seq<string>, over: Gauge, k: nat)
    requires |messages| > 1 && |messages[0]| <= KEPT && over(messages)
    ensures Dropped(messages[1..], over, k) <==> Dropped(messages, over, k + 1)
  {
    var rest := messages[1..];
    assert messages[0..] == messages;
    forall i | 0 <= i ensures DroppedAt(rest, over, i) <==> DroppedAt(messages, over, i + 1) {
      if i < |rest| {
        assert rest[i] == messages[i + 1] && rest[i..] == messages[i + 1..];
      }
    }
    if Dropped(rest, over, k) {
      forall i | 0 <= i < k + 1 ensures DroppedAt(messages, over, i) {
        if i > 0 {
          assert DroppedAt(rest, over, i - 1);
        }
      }
    }
    if Dropped(messages, over, k + 1) {
      forall i | 0 <= i < k ensures DroppedAt(rest, over, i) {
        assert DroppedAt(messages, over, i + 1);
      }
    }
  }

  /** Dropping one more short message in front, while over, is the same compaction one step longer. */
  lemma DropOneMore(messages: seq<string>, over: Gauge, k: nat, r: seq<string>)
    requires |messages| > 1 && |messages[0]| <= KEPT && over(messages)
    ensures IsCompaction(messages[1..], over, k, r) <==> IsCompaction(messages, over, k + 1, r)
  {
    DroppedOfTail(messages, over, k);
    if k + 1 <= |messages| {
      LeftOfTail(messages, over, k, r);
    }
  }

  lemma {:induction false} CompactionExists(messages: seq<string>, over: Gauge) returns (k: nat)
    ensures IsCompaction(messages, over, k, Compacted(messages, over))
    decreases |messages|
  {
    if |messages| > 1 && over(messages) && |messages[0]| <= KEPT {
      k := CompactionExists(messages[1..], over);
      DropOneMore(messages, over, k, Compacted(messages[1..], over));
      k := k + 1;
    } else {
      k := 0;
      assert messages[0..] == messages;
    }
  }

  lemma {:induction false} CompactionUnique(messages: seq<string>, over: Gauge, k: nat, r: seq<string>)
    requires IsCompaction(messages, over, k, r)
    ensures r == Compacted(messages, over)
    decreases |messages|
  {
    assert messages[0..] == messages;
    if k > 0 {
      assert DroppedAt(messages, over, 0);
      DropOneMore(messages, over, k - 1, r);
      CompactionUnique(messages[1..], over, k - 1, r);
    }
  }

  /** One call does what IsCompaction says and nothing else. */
  lemma SingleCall(messages: seq<string>, over: Gauge, r: seq<string>)
    ensures r == Compacted(messages, over) <==> exists k: nat :: IsCompaction(messages, over, k, r)
  {
    if r == Compacted(messages, over) {
      var k := CompactionExists(messages, over);
    }
    forall j: nat | IsCompaction(messages, over, j, r) ensures r == Compacted(messages, over) {
      CompactionUnique(messages, over, j, r);
    }
  }

  /** The newest message always comes through verbatim. */
  lemma {:induction false} NewestIsKept(messages: seq<string>, over: Gauge)
    requires messages != []
    ensures var out := Compacted(messages, over);
            out != [] && out[|out| - 1] == messages[|messages| - 1]
    decreases |messages|
  {
    if |messages| > 1 {
      NewestIsKept(messages[1..], over);
    }
  }

  lemma {:induction false} TotalOfSuffix(messages: seq<string>, k: nat)
    requires k <= |messages|
    ensures TotalChars(messages[k..]) <= TotalChars(messages)
    decreases |messages|
  {
    if k == 0 {
      assert messages[0..] == messages;
    } else {
      assert messages[k..] == messages[1..][k - 1..];
      TotalOfSuffix(messages[1..], k - 1);
    }
  }

  /** A call grows the history by at most 37 characters, never by dropping, and shrinks it by truncating 239 or more. */
  lemma SizeBound(messages: seq<string>, over: Gauge, k: nat)
    requires IsCompaction(messages, over, k, Compacted(messages, over))
    ensures var after := TotalChars(Compacted(messages, over));
            && after <= TotalChars(messages) + 37
            && (Kept(messages, over, k) ==> after <= TotalChars(messages))
            && (!Kept(messages, over, k) && |messages[k]| >= 239 ==> after < TotalChars(messages))
  {
    TotalOfSuffix(messages, k);
    if !Kept(messages, over, k) {
      DigitsFarBelowValue(|messages[k]|);
      assert messages[k..][1..] == messages[k + 1..];
      assert ([Marker(messages[k])] + messages[k + 1..])[1..] == messages[k + 1..];
    }
  }

  /** The bound is met: 37 characters is what a 201-character head costs. */
  lemma SizeBoundIsTight(head: string, last: string, over: Gauge)
    requires |head| == 201 && over([head, last])
    ensures TotalChars(Compacted([head, last], over)) == TotalChars([head, last]) + 37
  {
    assert Decimal(201) == Decimal(20) + [Digit(1)];
    assert [head, last][1..] == [last];
    assert ([Marker(head)] + [last])[1..] == [last];
  }

  // ---------------------------------------------------------------- any sequence of calls

  datatype Op = Append(message: string) | Compact(threshold: real, maxContextTokens: int)

  ghost function Do(messages: seq<string>, op: Op): seq<string> {
    match op
    case Append(m) => messages + [m]
    case Compact(threshold, max) => Compacted(messages, AtOrOver(threshold, max))
  }

  ghost function Run(messages: seq<string>, ops: seq<Op>): seq<string>
    decreases |ops|
  {
    if ops == [] then messages else Run(Do(messages, ops[0]), ops[1..])
  }

  ghost function Appended(ops: seq<Op>): seq<string> {
    if ops == [] then []
    else (if ops[0].Append? then [ops[0].message] else []) + Appended(ops[1..])
  }

  /** A text after n rewritings by its marker. */
  ghost function Rewritten(text: string, n: nat): (s: string)
    requires |text| > KEPT
    ensures |s| > KEPT
  {
    if n == 0 then text else Marker(Rewritten(text, n - 1))
  }

  ghost predicate Rewrites(messages: seq<string>, op: Op) {
    op.Compact? && |messages| > 1 && AtOrOver(op.threshold, op.maxContextTokens)(messages)
  }

  /** How many of the calls find the history at or over their threshold. */
  ghost function Rewritings(messages: seq<string>, ops: seq<Op>): nat
    decreases |ops|
  {
    if ops == [] then 0
    else (if Rewrites(messages, ops[0]) then 1 else 0) + Rewritings(Do(messages, ops[0]), ops[1..])
  }

  lemma {:induction false} RewrittenTwice(text: string, n: nat)
    requires |text| > KEPT
    ensures Rewritten(Marker(text), n) == Rewritten(text, n + 1)
  {
    if n > 0 {
      RewrittenTwice(text, n - 1);
    }
  }

  /** A step on a history with a long head: an append, a rewriting of the head, or nothing. */
  lemma StepWithLongHead(messages: seq<string>, op: Op)
    requires messages != [] && |messages[0]| > KEPT
    ensures var next := Do(messages, op);
            && next != []
            && next[0] == (if Rewrites(messages, op) then Marker(messages[0]) else messages[0])
            && next[1..] == messages[1..] + if op.Append? then [op.message] else []
  {}

  lemma Glue(x: string, a: seq<string>, b: seq<string>, c: seq<string>)
    ensures [x] + (a + b) + c == [x] + a + (b + c)
  {}

  /**
   Once the oldest message is long - and a marker is - no later call, with whatever limits, removes
   any message or touches any but the oldest, whose text is rewritten once per call that is over.
   */
  lemma {:induction false} OnlyTheHeadChanges(messages: seq<string>, ops: seq<Op>)
    requires messages != [] && |messages[0]| > KEPT
    ensures Run(messages, ops) ==
            [Rewritten(messages[0], Rewritings(messages, ops))] + messages[1..] + Appended(ops)
    decreases |ops|
  {
    if ops == [] {
      assert messages == [messages[0]] + messages[1..];
    } else {
      var next, rest := Do(messages, ops[0]), ops[1..];
      StepWithLongHead(messages, ops[0]);
      OnlyTheHeadChanges(next, rest);
      HeadOverSteps(messages, ops);
      Glue(Rewritten(next[0], Rewritings(next, rest)), messages[1..],
           if ops[0].Append? then [ops[0].message] else [], Appended(rest));
    }
  }

  lemma HeadOverSteps(messages: seq<string>, ops: seq<Op>)
    requires messages != [] && |messages[0]| > KEPT && ops != []
    requires var next := Do(messages, ops[0]);
             next != [] && next[0] == if Rewrites(messages, ops[0]) then Marker(messages[0]) else messages[0]
    ensures var next := Do(messages, ops[0]);
            Rewritten(next[0], Rewritings(next, ops[1..])) == Rewritten(messages[0], Rewritings(messages, ops))
  {
    RewrittenTwice(messages[0], Rewritings(Do(messages, ops[0]), ops[1..]));
  }

  /** Head lengths: never below 238 after a rewriting, and 238 is the only length that stays. */
  lemma HeadLength(text: string)
    requires |text| > KEPT
    ensures |Marker(text)| >= 238
    ensures |Marker(text)| == |text| <==> |text| == 238
    ensures |text| >= 239 ==> |Marker(text)| < |text|
    ensures |text| <= 238 ==> |Marker(text)| == 238
  {
    DigitsFarBelowValue(|text|);
  }

  /** Lengths reach 238: two rewritings do for any text whose length has at most 764 digits, and n do for any length
      up to 237 + n. */
  lemma {:induction false} HeadLengthConverges(text: string, n: nat)
    requires |text| > KEPT && n > 0
    ensures |Rewritten(text, n)| >= 238
    ensures |text| <= 237 + n ==> |Rewritten(text, n)| == 238
    ensures n >= 2 && |Decimal(|text|)| <= 764 ==> |Rewritten(text, n)| == 238
  {
    HeadLength(Rewritten(text, n - 1));
    if n > 1 {
      HeadLengthConverges(text, n - 1);
      LengthsDescend(text, n - 1);
      if n == 2 {
        DigitsFarBelowValue(|Marker(text)|);
        assert Rewritten(text, 1) == Marker(Rewritten(text, 0));
      }
    }
  }

  lemma {:induction false} LengthsDescend(text: string, n: nat)
    requires |text| > KEPT
    ensures |Rewritten(text, n)| <= 238 || |Rewritten(text, n)| + n <= |text|
  {
    if n > 0 {
      LengthsDescend(text, n - 1);
      HeadLength(Rewritten(text, n - 1));
    }
  }

  lemma MarkerStart(text: string, m: nat)
    requires |text| > KEPT && m <= KEPT
    ensures Marker(text)[..m] == if m <= 12 then OPENING[..m] else OPENING + text[..m - 12]
  {}

  /** Up to seventeen rewritings, the openings are followed by what still fits of the message itself. */
  lemma {:induction false} WhatIsLeft(text: string, n: nat)
    requires |text| > KEPT && 1 <= n <= 17
    ensures |Rewritten(text, n)| >= 212
    ensures Rewritten(text, n)[12 * n..212] == text[0..212 - 12 * n]
  {
    var before := Rewritten(text, n - 1);
    MarkerKeeps(before);
    if n > 1 {
      WhatIsLeft(text, n - 1);
      Slice(Rewritten(text, n), 12, 212, 12 * (n - 1), 200);
      Slice(before, 0, KEPT, 12 * (n - 1), 200);
      Slice(before, 12 * (n - 1), 212, 0, 212 - 12 * n);
      Slice(text, 0, 224 - 12 * n, 0, 212 - 12 * n);
    }
  }

  lemma Slice(s: string, a: nat, b: nat, c: nat, d: nat)
    requires c <= d <= b - a && b <= |s|
    ensures s[a..b][c..d] == s[a + c..a + d]
  {
    forall i | 0 <= i < d - c ensures s[a..b][c..d][i] == s[a + c..a + d][i] {}
  }

  lemma MarkerKeeps(text: string)
    requires |text| > KEPT
    ensures |Marker(text)| >= 212 && Marker(text)[12..212] == text[0..KEPT]
  {}

  /**
   So eighteen rewritings are needed for that: up to the seventeenth, texts of different beginnings stay apart. With
   lengths that agree, the beginning is all that keeps them apart.
   */
  lemma FewerRewritingsRemember(text: string, other: string, n: nat)
    requires |text| > KEPT && |other| > KEPT && 1 <= n <= 17
    ensures Rewritten(text, n) == Rewritten(other, n) ==> text[..212 - 12 * n] == other[..212 - 12 * n]
    ensures |Rewritten(text, n - 1)| == |Rewritten(other, n - 1)| ==>
              (Rewritten(text, n) == Rewritten(other, n) <==> text[..212 - 12 * n] == other[..212 - 12 * n])
  {
    WhatIsLeft(text, n);
    WhatIsLeft(other, n);
    if |Rewritten(text, n - 1)| == |Rewritten(other, n - 1)| && text[..212 - 12 * n] == other[..212 - 12 * n] {
      SameBeginnings(text, other, 212 - 12 * n, n - 1, KEPT);
      MarkerReadsLittle(Rewritten(text, n - 1), Rewritten(other, n - 1));
    }
  }

  lemma MarkersBeginAlike(a: string, b: string, m: nat)
    requires |a| > KEPT && |b| > KEPT && m <= KEPT
    requires m > 12 ==> a[..m - 12] == b[..m - 12]
    ensures Marker(a)[..m] == Marker(b)[..m]
  {
    MarkerStart(a, m);
    MarkerStart(b, m);
  }

  /** Each rewriting pushes the kept text twelve characters to the right: texts that begin alike for `kept`
      characters begin alike for twelve more. */
  lemma {:induction false} SameBeginnings(text: string, other: string, kept: nat, n: nat, m: nat)
    requires |text| > KEPT && |other| > KEPT && kept <= KEPT && m <= KEPT
    requires text[..kept] == other[..kept] && m <= kept + 12 * n
    ensures Rewritten(text, n)[..m] == Rewritten(other, n)[..m]
  {
    if n == 0 {
      assert text[..m] == text[..kept][..m] && other[..m] == other[..kept][..m];
    } else {
      if m > 12 {
        SameBeginnings(text, other, kept, n - 1, m - 12);
      }
      MarkersBeginAlike(Rewritten(text, n - 1), Rewritten(other, n - 1), m);
    }
  }

  lemma MarkerReadsLittle(a: string, b: string)
    requires |a| == |b| > KEPT && a[..KEPT] == b[..KEPT]
    ensures Marker(a) == Marker(b)
  {}

  /** Enough rewritings: eighteen, if the length has at most 764 digits; and for a longer text one for each
      character beyond 236. */
  predicate EnoughFor(text: string, n: nat) {
    n >= 18 && (|Decimal(|text|)| <= 764 || |text| <= 236 + n)
  }

  /**
   After eighteen rewritings and enough for the length to settle, the head is one and the same text
   whatever the oldest message said, and rewriting it again changes nothing.
   */
  lemma RewritingForgetsTheMessage(text: string, other: string, n: nat)
    requires |text| > KEPT && |other| > KEPT
    requires EnoughFor(text, n) && EnoughFor(other, n)
    ensures Rewritten(text, n) == Rewritten(other, n)
    ensures Marker(Rewritten(text, n)) == Rewritten(text, n)
  {
    SettledLength(text, n);
    SettledLength(other, n);
    SameAfterEnough(text, other, n);
    SettlesForGood(text, n);
  }

  lemma SettledLength(text: string, n: nat)
    requires |text| > KEPT && EnoughFor(text, n)
    ensures |Rewritten(text, n - 1)| == |Rewritten(text, n)| == 238
  {
    HeadLengthConverges(text, n - 1);
    HeadLengthConverges(text, n);
  }

  lemma SettlesForGood(text: string, n: nat)
    requires |text| > KEPT && n >= 18 && |Rewritten(text, n - 1)| == |Rewritten(text, n)| == 238
    ensures Marker(Rewritten(text, n)) == Rewritten(text, n)
  {
    SameBeginnings(text, Marker(text), 0, n - 1, KEPT);
    RewrittenTwice(text, n - 1);
    MarkerReadsLittle(Rewritten(text, n - 1), Rewritten(text, n));
  }

  lemma SameAfterEnough(text: string, other: string, n: nat)
    requires |text| > KEPT && |other| > KEPT && n >= 18
    requires |Rewritten(text, n - 1)| == |Rewritten(other, n - 1)| == 238
    ensures Rewritten(text, n) == Rewritten(other, n)
  {
    SameBeginnings(text, other, 0, n - 1, KEPT);
    MarkerReadsLittle(Rewritten(text, n - 1), Rewritten(other, n - 1));
  }

  /** So over any sequence of calls: once the head is long, every message but it survives, and after enough
      rewritings the head is 238 characters that further calls leave alone and that say nothing of the original. */
  lemma TruncatedHistorySettles(messages: seq<string>, other: seq<string>, ops: seq<Op>, otherOps: seq<Op>)
    returns (head: string)
    requires messages != [] && |messages[0]| > KEPT && other != [] && |other[0]| > KEPT
    requires Rewritings(messages, ops) == Rewritings(other, otherOps)
    requires EnoughFor(messages[0], Rewritings(messages, ops)) && EnoughFor(other[0], Rewritings(messages, ops))
    ensures |head| == 238 && Marker(head) == head
    ensures Run(messages, ops) == [head] + messages[1..] + Appended(ops)
    ensures Run(other, otherOps) == [head] + other[1..] + Appended(otherOps)
  {
    var n := Rewritings(messages, ops);
    head := Rewritten(messages[0], n);
    OnlyTheHeadChanges(messages, ops);
    OnlyTheHeadChanges(other, otherOps);
    SettledLength(messages[0], n);
    RewritingForgetsTheMessage(messages[0], other[0], n);
  }

  // ---------------------------------------------------------------- does repeating it help?

  lemma UtilizationMonotone(a: nat, b: nat, max: int)
    requires a <= b
    ensures if max >= 0 then UtilizationOf(a, max) <= UtilizationOf(b, max)
            else UtilizationOf(a, max) >= UtilizationOf(b, max)
  {
    if max != 0 {
      var x, y, m := a as real / CHARS_PER_TOKEN, b as real / CHARS_PER_TOKEN, max as real;
      assert x <= y;
      if max > 0 {
        assert x / m <= y / m;
      } else {
        assert x / m >= y / m;
      }
    }
  }

  /** Between two sizes that are at or over the threshold no size is under it, whatever the sign of the window. */
  lemma NotUnderBetween(a: nat, b: nat, c: nat, max: int, threshold: real)
    requires a <= b <= c
    requires UtilizationOf(a, max) >= threshold && UtilizationOf(c, max) >= threshold
    ensures UtilizationOf(b, max) >= threshold
  {
    UtilizationMonotone(a, b, max);
    UtilizationMonotone(b, c, max);
  }

  ghost function CompactedTimes(messages: seq<string>, threshold: real, max: int, n: nat): seq<string> {
    if n == 0 then messages else Compacted(CompactedTimes(messages, threshold, max, n - 1), AtOrOver(threshold, max))
  }

  /** Some number of calls gets the history under the threshold. */
  ghost predicate GetsUnder(messages: seq<string>, threshold: real, max: int) {
    exists n: nat :: Utilization(CompactedTimes(messages, threshold, max, n), max) < threshold
  }

  /** While every earlier history was over, n calls have rewritten the head n times. */
  lemma {:induction false} StillOver(messages: seq<string>, threshold: real, max: int, n: nat)
    requires |messages| > 1 && |messages[0]| > KEPT
    requires forall i: nat :: i < n ==> Utilization(CompactedTimes(messages, threshold, max, i), max) >= threshold
    ensures CompactedTimes(messages, threshold, max, n) == [Rewritten(messages[0], n)] + messages[1..]
  {
    if n == 0 {
      assert messages == [messages[0]] + messages[1..];
    } else {
      StillOver(messages, threshold, max, n - 1);
      var h := CompactedTimes(messages, threshold, max, n - 1);
      assert h[1..] == messages[1..];
    }
  }

  lemma TotalWithHead(head: string, rest: seq<string>)
    ensures TotalChars([head] + rest) == |head| + TotalChars(rest)
  {
    assert ([head] + rest)[1..] == rest;
  }

  lemma EventuallyUnder(messages: seq<string>, threshold: real, max: int)
    requires |messages| > 1 && |messages[0]| > KEPT
    requires UtilizationOf(238 + TotalChars(messages[1..]), max) < threshold
    ensures GetsUnder(messages, threshold, max)
  {
    var n := |messages[0]|;
    if forall i: nat :: i < n ==> Utilization(CompactedTimes(messages, threshold, max, i), max) >= threshold {
      StillOver(messages, threshold, max, n);
      HeadLengthConverges(messages[0], n);
      TotalWithHead(Rewritten(messages[0], n), messages[1..]);
      assert Utilization(CompactedTimes(messages, threshold, max, n), max) < threshold;
    }
  }

  /** A rewritten head is no longer than 238 characters or than the message it came from, and no shorter than 238. */
  lemma RewrittenLength(text: string, n: nat)
    requires |text| > KEPT
    ensures n > 0 ==> 238 <= |Rewritten(text, n)|
    ensures |Rewritten(text, n)| <= 238 || |Rewritten(text, n)| <= |text|
  {
    LengthsDescend(text, n);
    if n > 0 {
      HeadLengthConverges(text, n);
    }
  }

  lemma {:induction false} NeverUnder(messages: seq<string>, threshold: real, max: int, n: nat)
    requires |messages| > 1 && |messages[0]| > KEPT
    requires Utilization(messages, max) >= threshold
    requires UtilizationOf(238 + TotalChars(messages[1..]), max) >= threshold
    ensures CompactedTimes(messages, threshold, max, n) == [Rewritten(messages[0], n)] + messages[1..]
    ensures Utilization(CompactedTimes(messages, threshold, max, n), max) >= threshold
  {
    var head, rest := messages[0], messages[1..];
    assert messages == [head] + rest;
    if n > 0 {
      NeverUnder(messages, threshold, max, n - 1);
      assert CompactedTimes(messages, threshold, max, n - 1)[1..] == rest;
      TotalWithHead(head, rest);
      TotalWithHead(Rewritten(head, n), rest);
      RewrittenLength(head, n);
      NotUnderBetween(238 + TotalChars(rest), |Rewritten(head, n)| + TotalChars(rest),
                      (if |head| > 238 then |head| else 238) + TotalChars(rest), max, threshold);
    }
  }

  lemma LongHeadHelpedExactlyWhen(messages: seq<string>, threshold: real, max: int)
    requires |messages| > 1 && |messages[0]| > KEPT
    ensures GetsUnder(messages, threshold, max) <==>
            || Utilization(messages, max) < threshold
            || UtilizationOf(238 + TotalChars(messages[1..]), max) < threshold
  {
    if Utilization(messages, max) < threshold {
      assert Utilization(CompactedTimes(messages, threshold, max, 0), max) < threshold;
    } else if UtilizationOf(238 + TotalChars(messages[1..]), max) < threshold {
      EventuallyUnder(messages, threshold, max);
    } else {
      forall n: nat ensures Utilization(CompactedTimes(messages, threshold, max, n), max) >= threshold {
        NeverUnder(messages, threshold, max, n);
      }
    }
  }

  /** What is left of a history when the short messages in front are dropped, for as long as it is over. */
  function AfterDrops(messages: seq<string>, over: Gauge): seq<string>
    decreases |messages|
  {
    if |messages| > 1 && over(messages) && |messages[0]| <= KEPT then AfterDrops(messages[1..], over) else messages
  }

  lemma {:induction false} DropsComeFirst(messages: seq<string>, over: Gauge)
    ensures var rest := AfterDrops(messages, over);
            && Compacted(messages, over) == Compacted(rest, over)
            && (rest != messages ==> over(messages))
            && (|rest| > 1 && over(rest) ==> |rest[0]| > KEPT)
            && (|rest| <= 1 || !over(rest) ==> Compacted(rest, over) == rest)
    decreases |messages|
  {
    if |messages| > 1 && over(messages) && |messages[0]| <= KEPT {
      DropsComeFirst(messages[1..], over);
    }
  }

  lemma {:induction false} SameFromTheFirstCallOn(messages: seq<string>, threshold: real, max: int, n: nat)
    requires n > 0
    ensures CompactedTimes(messages, threshold, max, n) ==
            CompactedTimes(AfterDrops(messages, AtOrOver(threshold, max)), threshold, max, n)
  {
    if n == 1 {
      DropsComeFirst(messages, AtOrOver(threshold, max));
      assert CompactedTimes(messages, threshold, max, 0) == messages;
    } else {
      SameFromTheFirstCallOn(messages, threshold, max, n - 1);
    }
  }

  lemma {:induction false} AloneStays(messages: seq<string>, threshold: real, max: int, n: nat)
    requires |messages| <= 1
    ensures CompactedTimes(messages, threshold, max, n) == messages
  {
    if n > 0 {
      AloneStays(messages, threshold, max, n - 1);
    }
  }

  /** A history and what is left of it after the drops get under the threshold alike. */
  lemma DropsDecideNothing(messages: seq<string>, threshold: real, max: int)
    ensures var rest := AfterDrops(messages, AtOrOver(threshold, max));
            GetsUnder(messages, threshold, max) <==> GetsUnder(rest, threshold, max)
  {
    var rest := AfterDrops(messages, AtOrOver(threshold, max));
    DropsComeFirst(messages, AtOrOver(threshold, max));
    if n: nat :| Utilization(CompactedTimes(messages, threshold, max, n), max) < threshold {
      if n > 0 {
        SameFromTheFirstCallOn(messages, threshold, max, n);
      }
      assert Utilization(CompactedTimes(rest, threshold, max, n), max) < threshold;
    }
    if n: nat :| Utilization(CompactedTimes(rest, threshold, max, n), max) < threshold {
      var m := if n > 0 then n else 1;
      SameFromTheFirstCallOn(messages, threshold, max, m);
      if n == 0 {
        assert CompactedTimes(rest, threshold, max, 0) == rest;
        assert CompactedTimes(rest, threshold, max, 1) == rest;
      }
      assert Utilization(CompactedTimes(messages, threshold, max, m), max) < threshold;
    }
  }

  /**
   "Re-evaluate on the next call" gets a history under the threshold, in some number of calls, exactly when dropping
   short messages does, or would with a head of 238 characters before the rest.
   */
  lemma RepeatingHelpsExactlyWhen(messages: seq<string>, threshold: real, max: int)
    ensures var rest := AfterDrops(messages, AtOrOver(threshold, max));
            GetsUnder(messages, threshold, max) <==>
            || Utilization(rest, max) < threshold
            || (|rest| > 1 && UtilizationOf(238 + TotalChars(rest[1..]), max) < threshold)
  {
    var rest := AfterDrops(messages, AtOrOver(threshold, max));
    DropsDecideNothing(messages, threshold, max);
    DropsComeFirst(messages, AtOrOver(threshold, max));
    if Utilization(rest, max) < threshold {
      assert Utilization(CompactedTimes(rest, threshold, max, 0), max) < threshold;
    } else if |rest| > 1 {
      LongHeadHelpedExactlyWhen(rest, threshold, max);
    } else {
      forall n: nat ensures Utilization(CompactedTimes(rest, threshold, max, n), max) >= threshold {
        AloneStays(rest, threshold, max, n);
      }
    }
  }
}
