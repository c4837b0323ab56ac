/**
 The retrieval server's keyword search: tokens of the query, counted as substrings of each text,
 sorted by count with ties in corpus order, cut to k.

 `lower` stands for str.lower, which is any function here.
 */
module KeywordSearch {
  import opened Wrappers

  datatype Doc = Doc(id: string, text: string)

  type Corpus = seq<Doc>

  datatype Chunk = Chunk(id: string, text: string, score: nat)

  /** A scored document, by its place in the corpus. */
  datatype Hit = Hit(pos: nat, score: nat)

  // ---------------------------------------------------------------- tokens and scores

  /** The characters str.split() splits at. */
  predicate IsSpace(c: char) {
    var n := c as int;
    || 0x09 <= n <= 0x0D || 0x1C <= n <= 0x20 || n == 0x85 || n == 0xA0 || n == 0x1680
    || 0x2000 <= n <= 0x200A || n == 0x2028 || n == 0x2029 || n == 0x202F || n == 0x205F || n == 0x3000
  }

  /** str.split(): the maximal runs of non-space characters, `word` being the run so far. */
  function SplitFrom(s: string, word: string): seq<string> {
    if s == [] then (if word == [] then [] else [word])
    else if IsSpace(s[0]) then (if word == [] then [] else [word]) + SplitFrom(s[1..], [])
    else SplitFrom(s[1..], word + [s[0]])
  }

  function Split(s: string): seq<string> {
    SplitFrom(s, [])
  }

  function Terms(lower: string -> string, query: string): seq<string> {
    var words := Split(query);
    seq(|words|, i requires 0 <= i < |words| => lower(words[i]))
  }

  /** `t in text` on strings. */
  predicate Occurs(t: string, text: string) {
    t <= text || (text != [] && Occurs(t, text[1..]))
  }

  function Matches(terms: seq<string>, text: string): nat {
    if terms == [] then 0
    else Matches(terms[..|terms| - 1], text) + if Occurs(terms[|terms| - 1], text) then 1 else 0
  }

  function Score(lower: string -> string, query: string, doc: Doc): nat {
    Matches(Terms(lower, query), lower(doc.text))
  }

  /** Splitting distributes over a blank, a tab and the ends of lines. */
  lemma {:induction false} SplitAtSpace(s: string, c: char, t: string, word: string)
    requires c in " \t\n\r"
    ensures SplitFrom(s + [c] + t, word) == SplitFrom(s, word) + Split(t)
    decreases |s|
  {
    if s == [] {
      assert (s + [c] + t)[1..] == t;
    } else {
      assert (s + [c] + t)[1..] == s[1..] + [c] + t;
      SplitAtSpace(s[1..], c, t, if IsSpace(s[0]) then [] else word + [s[0]]);
    }
  }

  lemma {:induction false} MatchesAdd(a: seq<string>, b: seq<string>, text: string)
    ensures Matches(a + b, text) == Matches(a, text) + Matches(b, text)
    decreases |b|
  {
    if b == [] {
      assert a + b == a;
    } else {
      assert (a + b)[..|a + b| - 1] == a + b[..|b| - 1];
      MatchesAdd(a, b[..|b| - 1], text);
    }
  }

  predicate OccursAt(t: string, text: string, i: int) {
    0 <= i <= |text| - |t| && text[i..i + |t|] == t
  }

  lemma OccursOneLater(t: string, text: string, i: nat)
    requires text != []
    ensures OccursAt(t, text[1..], i) <==> OccursAt(t, text, i + 1)
  {
    if i + 1 + |t| <= |text| {
      assert text[1..][i..i + |t|] == text[i + 1..i + 1 + |t|];
    }
  }

  lemma {:induction false} OccursSomewhere(t: string, text: string)
    ensures Occurs(t, text) <==> exists i :: OccursAt(t, text, i)
  {
    if t <= text {
      assert OccursAt(t, text, 0);
    } else if text != [] {
      OccursSomewhere(t, text[1..]);
      if i :| OccursAt(t, text[1..], i) {
        OccursOneLater(t, text, i);
        assert OccursAt(t, text, i + 1);
      }
      if i :| OccursAt(t, text, i) {
        if i > 0 {
          OccursOneLater(t, text, i - 1);
          assert OccursAt(t, text[1..], i - 1);
        }
      }
    }
  }

  function Places(terms: seq<string>, text: string): set<nat> {
    set i | 0 <= i < |terms| && Occurs(terms[i], text)
  }

  /** A score counts the places in the query whose word occurs: a repeated word counts again. */
  lemma {:induction false} MatchesCounts(terms: seq<string>, text: string)
    ensures Matches(terms, text) == |Places(terms, text)|
    decreases |terms|
  {
    if terms == [] {
      assert Places(terms, text) == {};
    } else {
      var init, n := terms[..|terms| - 1], |terms| - 1;
      MatchesCounts(init, text);
      assert forall i :: 0 <= i < n ==> init[i] == terms[i];
      if Occurs(terms[n], text) {
        assert Places(terms, text) == Places(init, text) + {n} && n !in Places(init, text);
      } else {
        assert Places(terms, text) == Places(init, text);
      }
    }
  }

  /** A word without spaces is its own split; with SplitAtSpace this fixes every split at blanks. */
  lemma {:induction false} SplitOfAWord(word: string, s: string)
    requires forall c <- s :: !IsSpace(c)
    ensures SplitFrom(s, word) == if word + s == [] then [] else [word + s]
    decreases |s|
  {
    if s == [] {
      assert word + s == word;
    } else {
      assert s[0] in s;
      assert word + [s[0]] + s[1..] == word + s;
      SplitOfAWord(word + [s[0]], s[1..]);
    }
  }

  /** Scores add over queries, so more words never lose a document or lower its score. */
  lemma ScoresAdd(lower: string -> string, q1: string, q2: string, doc: Doc)
    ensures Score(lower, q1 + " " + q2, doc) == Score(lower, q1, doc) + Score(lower, q2, doc)
  {
    SplitAtSpace(q1, ' ', q2, []);
    assert q1 + " " + q2 == q1 + [' '] + q2;
    assert Terms(lower, q1 + " " + q2) == Terms(lower, q1) + Terms(lower, q2);
    MatchesAdd(Terms(lower, q1), Terms(lower, q2), lower(doc.text));
  }

  // ---------------------------------------------------------------- the ranking

  ghost predicate Scored(lower: string -> string, corpus: Corpus, query: string, h: Hit) {
    h.pos < |corpus| && h.score == Score(lower, query, corpus[h.pos]) && h.score > 0
  }

  /** Higher scores first; ties in corpus order. */
  predicate Before(a: Hit, b: Hit) {
    a.score > b.score || (a.score == b.score && a.pos < b.pos)
  }

  /** All matching documents and nothing else, each once, in order. */
  ghost predicate IsRanking(lower: string -> string, corpus: Corpus, query: string, hits: seq<Hit>) {
    && (forall h :: h in hits <==> Scored(lower, corpus, query, h))
    && InOrder(hits)
  }

  lemma SomethingIn(s: seq<Hit>)
    ensures s == [] || s[0] in s
  {}

  /** There is only one ranking. */
  lemma {:induction false} RankingIsUnique(a: seq<Hit>, b: seq<Hit>)
    requires forall h :: h in a <==> h in b
    requires InOrder(a) && InOrder(b)
    ensures a == b
    decreases |a|
  {
    SomethingIn(a);
    SomethingIn(b);
    if a != [] {
      assert a[0] == b[0];
      forall h ensures h in a[1..] <==> h in b[1..] {
        if h in a[1..] {
          var i :| 0 <= i < |a[1..]| && a[1..][i] == h;
          assert h == a[i + 1] && h in b && h != b[0];
          var j :| 0 <= j < |b| && b[j] == h;
          assert b[1..][j - 1] == h;
        }
        if h in b[1..] {
          var i :| 0 <= i < |b[1..]| && b[1..][i] == h;
          assert h == b[i + 1] && h in a && h != a[0];
          var j :| 0 <= j < |a| && a[j] == h;
          assert a[1..][j - 1] == h;
        }
      }
      RankingIsUnique(a[1..], b[1..]);
    }
  }

  /** Python's s[:k]. */
  function Slice<T>(s: seq<T>, k: int): seq<T> {
    if k >= 0 then (if k <= |s| then s[..k] else s)
    else if |s| + k >= 0 then s[..|s| + k]
    else []
  }

  function ToChunk(corpus: Corpus, hit: Hit): Chunk
    requires hit.pos < |corpus|
  {
    Chunk(corpus[hit.pos].id, corpus[hit.pos].text, hit.score)
  }

  function ToChunks(corpus: Corpus, hits: seq<Hit>): seq<Chunk>
    requires forall h <- hits :: h.pos < |corpus|
  {
    assert forall i :: 0 <= i < |hits| ==> hits[i] in hits;
    seq(|hits|, i requires 0 <= i < |hits| => ToChunk(corpus, hits[i]))
  }

  // ---------------------------------------------------------------- the program

  method ScoreOf(terms: seq<string>, text: string) returns (score: nat)
    ensures score == Matches(terms, text)
  {
    score := 0;
    for i := 0 to |terms|
      invariant score == Matches(terms[..i], text)
    {
      assert terms[..i + 1][..i] == terms[..i];
      if Occurs(terms[i], text) {
        score := score + 1;
      }
    }
    assert terms[..|terms|] == terms;
  }

  /** A stable sort by falling score: each hit goes behind all hits scoring as much or more. */
  method SortByScore(scored: seq<Hit>) returns (sorted: seq<Hit>)
    requires forall i, j :: 0 <= i < j < |scored| ==> scored[i].pos < scored[j].pos
    ensures forall h :: h in sorted <==> h in scored
    ensures |sorted| == |scored|
    ensures InOrder(sorted)
  {
    sorted := [];
    for n := 0 to |scored|
      invariant |sorted| == n
      invariant forall h :: h in sorted <==> h in scored[..n]
      invariant InOrder(sorted)
    {
      var h := scored[n];
      var at := |sorted|;
      while at > 0 && sorted[at - 1].score < h.score
        invariant 0 <= at <= |sorted|
        invariant forall i :: at <= i < |sorted| ==> sorted[i].score < h.score
      {
        at := at - 1;
      }
      forall i | 0 <= i < |sorted| ensures sorted[i].pos < h.pos {
        assert sorted[i] in scored[..n];
      }
      InsertKeepsOrder(sorted, at, h);
      InsertedHolds(sorted, at, h);
      sorted := Inserted(sorted, at, h);
      assert scored[..n + 1] == scored[..n] + [h];
    }
    assert scored[..|scored|] == scored;
  }

  predicate InOrder(hits: seq<Hit>) {
    forall i, j :: 0 <= i < j < |hits| ==> Before(hits[i], hits[j])
  }

  function Inserted(sorted: seq<Hit>, at: nat, h: Hit): seq<Hit>
    requires at <= |sorted|
  {
    sorted[..at] + [h] + sorted[at..]
  }

  lemma InsertKeepsOrder(sorted: seq<Hit>, at: nat, h: Hit)
    requires at <= |sorted| && InOrder(sorted)
    requires forall i :: 0 <= i < |sorted| ==> sorted[i].pos < h.pos
    requires forall i :: at <= i < |sorted| ==> sorted[i].score < h.score
    requires at > 0 ==> sorted[at - 1].score >= h.score
    ensures InOrder(Inserted(sorted, at, h))
  {
    var r := Inserted(sorted, at, h);
    forall i, j | 0 <= i < j < |r| ensures Before(r[i], r[j]) {
      if i < at && j == at {
        assert r[i] == sorted[i] && r[j] == h;
        assert i < at - 1 ==> Before(sorted[i], sorted[at - 1]);
      } else if i == at {
        assert r[i] == h && r[j] == sorted[j - 1];
      } else {
        assert r[i] == sorted[if i < at then i else i - 1] && r[j] == sorted[if j < at then j else j - 1];
      }
    }
  }

  lemma InsertedHolds(sorted: seq<Hit>, at: nat, h: Hit)
    requires at <= |sorted|
    ensures forall x :: x in Inserted(sorted, at, h) <==> x in sorted || x == h
  {
    assert sorted == sorted[..at] + sorted[at..];
  }

  /** The first k chunks of the ranking of the corpus. */
  method Search(lower: string -> string, corpus: Corpus, query: string, k: int)
    returns (chunks: seq<Chunk>, ghost ranking: seq<Hit>)
    ensures IsRanking(lower, corpus, query, ranking)
    ensures (forall h <- Slice(ranking, k) :: h.pos < |corpus|) && chunks == ToChunks(corpus, Slice(ranking, k))
  {
    var terms := Terms(lower, query);
    var scored: seq<Hit> := [];
    for n := 0 to |corpus|
      invariant forall h :: h in scored <==> h.pos < n && Scored(lower, corpus, query, h)
      invariant forall i, j :: 0 <= i < j < |scored| ==> scored[i].pos < scored[j].pos
    {
      var score := ScoreOf(terms, lower(corpus[n].text));
      assert forall i :: 0 <= i < |scored| ==> scored[i] in scored;
      if score > 0 {
        scored := scored + [Hit(n, score)];
      }
    }
    var sorted := SortByScore(scored);
    ranking := sorted;
    forall h | h in Slice(sorted, k) ensures h.pos < |corpus| {
      assert h in sorted;
    }
    chunks := ToChunks(corpus, Slice(sorted, k));
  }

  method FetchChunk(corpus: Corpus, id: string) returns (r: Option<Doc>)
    ensures r == Fetched(corpus, id)
  {
    for n := 0 to |corpus|
      invariant Fetched(corpus, id) == Fetched(corpus[n..], id)
    {
      assert corpus[n..][1..] == corpus[n + 1..];
      if corpus[n].id == id {
        return Some(corpus[n]);
      }
    }
    r := None;
  }

  function Fetched(corpus: Corpus, id: string): Option<Doc> {
    if corpus == [] then None else if corpus[0].id == id then Some(corpus[0]) else Fetched(corpus[1..], id)
  }

  // ---------------------------------------------------------------- what a caller can rely on

  /** Word j of the query, in lower case, stands somewhere in the text, in lower case. */
  ghost predicate StandsIn(lower: string -> string, query: string, j: int, text: string) {
    0 <= j < |Split(query)| && exists i :: OccursAt(lower(Split(query)[j]), lower(text), i)
  }

  ghost function WordsIn(lower: string -> string, query: string, text: string): set<nat> {
    set j | 0 <= j < |Split(query)| && StandsIn(lower, query, j, text)
  }

  lemma ScoreCountsWords(lower: string -> string, query: string, doc: Doc)
    ensures Score(lower, query, doc) == |WordsIn(lower, query, doc.text)|
  {
    var terms := Terms(lower, query);
    MatchesCounts(terms, lower(doc.text));
    forall j | 0 <= j < |terms|
      ensures Occurs(terms[j], lower(doc.text)) <==> StandsIn(lower, query, j, doc.text)
    {
      OccursSomewhere(terms[j], lower(doc.text));
    }
    assert Places(terms, lower(doc.text)) == WordsIn(lower, query, doc.text);
  }

  /** A search returns the first k of its ranking; for a negative k, all but the last -k. */
  lemma HowManyAreReturned(ranking: seq<Hit>, k: int)
    ensures Slice(ranking, k) <= ranking
    ensures |Slice(ranking, k)| ==
            if 0 <= k <= |ranking| then k
            else if k > |ranking| then |ranking|
            else if |ranking| + k >= 0 then |ranking| + k
            else 0
  {}

  /** A document is found exactly when some word of the query, in lower case, stands in its text, in lower case. */
  lemma FoundExactlyWhen(lower: string -> string, corpus: Corpus, query: string, ranking: seq<Hit>, pos: nat)
    requires IsRanking(lower, corpus, query, ranking) && pos < |corpus|
    ensures (exists h :: h in ranking && h.pos == pos) <==>
            exists j :: StandsIn(lower, query, j, corpus[pos].text)
  {
    ScoreCountsWords(lower, query, corpus[pos]);
    var words, hit := WordsIn(lower, query, corpus[pos].text), Hit(pos, Score(lower, query, corpus[pos]));
    assert hit in ranking <==> hit.score > 0;
    assert (exists j :: StandsIn(lower, query, j, corpus[pos].text)) <==> words != {} by {
      if j :| StandsIn(lower, query, j, corpus[pos].text) {
        assert j in words;
      }
      if words != {} {
        var j :| j in words;
        assert StandsIn(lower, query, j, corpus[pos].text);
      }
    }
    assert words != {} <==> |words| > 0;
  }

  /** Every returned chunk is a document of the corpus and bears the number of query words that stand in its text. */
  lemma ChunksBearTheirCounts(lower: string -> string, corpus: Corpus, query: string, ranking: seq<Hit>, k: int,
                              n: nat)
    requires IsRanking(lower, corpus, query, ranking) && n < |Slice(ranking, k)|
    ensures forall h <- Slice(ranking, k) :: h.pos < |corpus|
    ensures var c, pos := ToChunks(corpus, Slice(ranking, k))[n], Slice(ranking, k)[n].pos;
            && pos < |corpus| && c.id == corpus[pos].id && c.text == corpus[pos].text
            && c.score == |WordsIn(lower, query, c.text)| > 0
  {
    forall h | h in Slice(ranking, k) ensures h in ranking {}
    var h := Slice(ranking, k)[n];
    assert h in Slice(ranking, k);
    ScoreCountsWords(lower, query, corpus[h.pos]);
  }

  /** The top k: positive scores, in order, and nothing left out should come before anything returned. */
  lemma TopK(lower: string -> string, corpus: Corpus, query: string, ranking: seq<Hit>, k: nat)
    requires IsRanking(lower, corpus, query, ranking)
    ensures var top := Slice(ranking, k);
            && |top| == (if k <= |ranking| then k else |ranking|)
            && top <= Slice(ranking, k + 1)
            && (forall i, j :: 0 <= i < j < |top| ==> Before(top[i], top[j]))
            && (forall h <- top :: Scored(lower, corpus, query, h))
            && (forall h, g :: h in top && Scored(lower, corpus, query, g) && g !in top ==> Before(h, g))
  {
    var top := Slice(ranking, k);
    forall h, g | h in top && Scored(lower, corpus, query, g) && g !in top ensures Before(h, g) {
      var i :| 0 <= i < |top| && top[i] == h;
      assert g in ranking;
      var j :| 0 <= j < |ranking| && ranking[j] == g;
      assert forall m :: 0 <= m < |top| ==> ranking[m] in top;
    }
  }

  ghost predicate UniqueIds(corpus: Corpus) {
    forall i, j :: 0 <= i < |corpus| && 0 <= j < |corpus| && corpus[i].id == corpus[j].id ==> corpus[i] == corpus[j]
  }

  lemma {:induction false} FetchedIsFirst(corpus: Corpus, i: nat)
    requires i < |corpus|
    ensures exists j :: 0 <= j <= i && corpus[j].id == corpus[i].id && Fetched(corpus, corpus[i].id) == Some(corpus[j])
    decreases |corpus|
  {
    if corpus[0].id != corpus[i].id {
      FetchedIsFirst(corpus[1..], i - 1);
      var j :| 0 <= j <= i - 1 && corpus[1..][j].id == corpus[i].id
               && Fetched(corpus[1..], corpus[i].id) == Some(corpus[1..][j]);
      assert corpus[j + 1] == corpus[1..][j];
    }
  }

  /** Every document is fetched back by its id exactly when no two different documents share one. */
  lemma CitationsCheckOut(corpus: Corpus)
    ensures (forall i :: 0 <= i < |corpus| ==> Fetched(corpus, corpus[i].id) == Some(corpus[i])) <==> UniqueIds(corpus)
  {
    if UniqueIds(corpus) {
      forall i | 0 <= i < |corpus| ensures Fetched(corpus, corpus[i].id) == Some(corpus[i]) {
        FetchedIsFirst(corpus, i);
      }
    }
    if forall i :: 0 <= i < |corpus| ==> Fetched(corpus, corpus[i].id) == Some(corpus[i]) {
      forall i, j | 0 <= i < |corpus| && 0 <= j < |corpus| && corpus[i].id == corpus[j].id
        ensures corpus[i] == corpus[j]
      {
        assert Fetched(corpus, corpus[i].id) == Some(corpus[i]) && Fetched(corpus, corpus[j].id) == Some(corpus[j]);
      }
    }
  }

  /** With unique ids, every chunk a search returns can be fetched by its id and is found as it was returned. */
  lemma ReturnedChunksCheckOut(lower: string -> string, corpus: Corpus, query: string, ranking: seq<Hit>, k: int)
    requires IsRanking(lower, corpus, query, ranking) && UniqueIds(corpus)
    ensures forall h <- Slice(ranking, k) :: h.pos < |corpus|
    ensures forall c <- ToChunks(corpus, Slice(ranking, k)) :: Fetched(corpus, c.id) == Some(Doc(c.id, c.text))
  {
    CitationsCheckOut(corpus);
    forall h | h in Slice(ranking, k) ensures h.pos < |corpus| {
      assert h in ranking;
    }
  }
}
