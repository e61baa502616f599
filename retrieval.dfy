/**
 * Retrieval for the chat: `LLMService.cosine_similarity` and
 * `LLMService.build_rag_context` of `backend/main.py`.
 *
 * Scores are reals. The floating-point core of the cosine similarity
 * (`dot / (sqrt(|a|^2) * sqrt(|b|^2))`), `round(score, 2)` and the `:.2f`
 * formatting are parameters; the guards that return 0 are modelled exactly.
 * The query embedding, the stored chunks and the settings, which the source
 * fetches from the embedding service and the database, are parameters too.
 */
module Retrieval {
  import opened PyStr

  type Vector = seq<real>

  /** `RAGSettings`: the defaults are 500, 50, 3 and 0.5. */
  datatype RagSettings = RagSettings(chunkSize: int, chunkOverlap: int, topK: int, scoreThreshold: real)

  /** A stored chunk with its embedding (`get_chunks_with_embedding`). */
  datatype StoredChunk = StoredChunk(content: string, embedding: Vector)

  /** A retrieved reference: chunk text and its rounded score. */
  datatype Reference = Reference(content: string, score: real)

  // ---------------------------------------------------------------------
  // Cosine similarity

  /** One product `x * y`, with the sign facts the norm guard relies on. */
  function Product(x: real, y: real): (r: real)
    ensures x > 0.0 && y > 0.0 ==> r > 0.0
    ensures x < 0.0 && y < 0.0 ==> r > 0.0
    ensures x == 0.0 || y == 0.0 ==> r == 0.0
  {
    x * y
  }

  /** `sum(x * y for x, y in zip(a, b))` */
  function Dot(a: Vector, b: Vector): real
    requires |a| == |b|
  {
    if a == [] then 0.0 else Product(a[0], b[0]) + Dot(a[1..], b[1..])
  }

  /** `sum(x * x for x in a)`, the squared norm. */
  function NormSq(a: Vector): real {
    if a == [] then 0.0 else Product(a[0], a[0]) + NormSq(a[1..])
  }

  /** `cosine_similarity(a, b)`: 0 for vectors of different lengths, an
      empty `a`, or a zero norm; otherwise `ratio(dot, |a|^2, |b|^2)`, which
      stands for `dot / (sqrt(|a|^2) * sqrt(|b|^2))`. */
  function Cosine(a: Vector, b: Vector, ratio: (real, real, real) -> real): real {
    if |a| != |b| || a == [] then 0.0
    else if NormSq(a) == 0.0 || NormSq(b) == 0.0 then 0.0
    else ratio(Dot(a, b), NormSq(a), NormSq(b))
  }

  /** Every coordinate is zero. */
  predicate IsZero(a: Vector) {
    forall i :: 0 <= i < |a| ==> a[i] == 0.0
  }

  /** The squared norm is never negative, and is zero exactly for the zero vector. */
  lemma {:induction false} NormSqZero(a: Vector)
    ensures NormSq(a) >= 0.0
    ensures IsZero(a) <==> NormSq(a) == 0.0
  {
    if a != [] {
      NormSqZero(a[1..]);
      if a[0] == 0.0 {
        assert IsZero(a) <==> IsZero(a[1..]) by {
          if IsZero(a[1..]) {
            forall i | 0 < i < |a| ensures a[i] == 0.0 {
              assert a[i] == a[1..][i - 1];
            }
          }
        }
      } else {
        assert Product(a[0], a[0]) > 0.0;
      }
    }
  }

  /** The similarity is 0 when the vectors differ in length, when `a` is
      empty, or when either is the zero vector; otherwise the norms handed
      to `ratio` are positive. */
  lemma CosineGuards(a: Vector, b: Vector, ratio: (real, real, real) -> real)
    ensures |a| != |b| || a == [] || IsZero(a) || IsZero(b) ==> Cosine(a, b, ratio) == 0.0
    ensures |a| == |b| && a != [] && !IsZero(a) && !IsZero(b) ==>
      && NormSq(a) > 0.0 && NormSq(b) > 0.0
      && Cosine(a, b, ratio) == ratio(Dot(a, b), NormSq(a), NormSq(b))
  {
    NormSqZero(a);
    NormSqZero(b);
  }

  // ---------------------------------------------------------------------
  // The scan: score every chunk, keep those at or above the threshold

  /** A stored chunk is kept when it has an embedding scoring at least the threshold. */
  predicate Passes(query: Vector, c: StoredChunk, threshold: real, ratio: (real, real, real) -> real) {
    c.embedding != [] && Cosine(query, c.embedding, ratio) >= threshold
  }

  /** The reference recorded for a kept chunk: its text and rounded score. */
  function RefOf(query: Vector, c: StoredChunk, ratio: (real, real, real) -> real, round: real -> real): Reference {
    Reference(c.content, round(Cosine(query, c.embedding, ratio)))
  }

  /** The `results` list after the scan of `chunks`, in store order. */
  function Candidates(query: Vector, chunks: seq<StoredChunk>, threshold: real,
                      ratio: (real, real, real) -> real, round: real -> real): (r: seq<Reference>)
    ensures |r| <= |chunks|
  {
    if chunks == [] then []
    else
      var prev := Candidates(query, chunks[..|chunks| - 1], threshold, ratio, round);
      var c := chunks[|chunks| - 1];
      if Passes(query, c, threshold, ratio) then prev + [RefOf(query, c, ratio, round)] else prev
  }

  /** Every candidate comes from a kept chunk, and candidates keep store order. */
  lemma {:induction false} CandidateFrom(query: Vector, chunks: seq<StoredChunk>, threshold: real,
                                         ratio: (real, real, real) -> real, round: real -> real, k: nat)
    requires k < |Candidates(query, chunks, threshold, ratio, round)|
    ensures exists j :: && k <= j < |chunks| && Passes(query, chunks[j], threshold, ratio)
                        && Candidates(query, chunks, threshold, ratio, round)[k] == RefOf(query, chunks[j], ratio, round)
    decreases |chunks|
  {
    var n := |chunks| - 1;
    var prev := Candidates(query, chunks[..n], threshold, ratio, round);
    if k < |prev| {
      CandidateFrom(query, chunks[..n], threshold, ratio, round, k);
      var j :| k <= j < n && Passes(query, chunks[..n][j], threshold, ratio)
        && prev[k] == RefOf(query, chunks[..n][j], ratio, round);
      assert chunks[..n][j] == chunks[j];
    } else {
      assert Passes(query, chunks[n], threshold, ratio);
    }
  }

  /** Every kept chunk gives a candidate. */
  lemma {:induction false} CandidateOf(query: Vector, chunks: seq<StoredChunk>, threshold: real,
                                       ratio: (real, real, real) -> real, round: real -> real, j: nat)
    requires j < |chunks| && Passes(query, chunks[j], threshold, ratio)
    ensures RefOf(query, chunks[j], ratio, round) in Candidates(query, chunks, threshold, ratio, round)
    decreases |chunks|
  {
    var n := |chunks| - 1;
    if j < n {
      CandidateOf(query, chunks[..n], threshold, ratio, round, j);
      assert chunks[..n][j] == chunks[j];
    }
  }

  /** The scan loop of `build_rag_context`. */
  method ScoreChunks(query: Vector, chunks: seq<StoredChunk>, threshold: real,
                     ratio: (real, real, real) -> real, round: real -> real)
      returns (results: seq<Reference>)
    ensures results == Candidates(query, chunks, threshold, ratio, round)
  {
    results := [];
    var i := 0;
    while i < |chunks|
      invariant i <= |chunks|
      invariant results == Candidates(query, chunks[..i], threshold, ratio, round)
    {
      var chunk := chunks[i];
      assert chunks[..i + 1][..i] == chunks[..i];
      if chunk.embedding != [] {
        var score := Cosine(query, chunk.embedding, ratio);
        if score >= threshold {
          results := results + [Reference(chunk.content, round(score))];
        }
      }
      i := i + 1;
    }
    assert chunks[..i] == chunks;
  }

  // ---------------------------------------------------------------------
  // The sort: descending by score, stable

  /** Scores never increase along the list. */
  predicate SortedDesc(rs: seq<Reference>) {
    forall i :: 0 < i < |rs| ==> rs[i - 1].score >= rs[i].score
  }

  /** The references with score `v`, in order. */
  function WithScore(rs: seq<Reference>, v: real): (r: seq<Reference>)
    ensures |r| <= |rs|
  {
    if rs == [] then []
    else (if rs[0].score == v then [rs[0]] else []) + WithScore(rs[1..], v)
  }

  /** `x` placed after every reference scoring at least as much. */
  function Insert(x: Reference, s: seq<Reference>): (r: seq<Reference>)
    ensures |r| == |s| + 1
  {
    if s == [] then [x]
    else if s[0].score >= x.score then [s[0]] + Insert(x, s[1..])
    else [x] + s
  }

  /** `results.sort(key=lambda x: x["score"], reverse=True)`: Python's sort
      is stable, also in reverse, so equal scores keep their order. */
  function SortDesc(rs: seq<Reference>): (r: seq<Reference>)
    ensures |r| == |rs|
  {
    if rs == [] then []
    else Insert(rs[|rs| - 1], SortDesc(rs[..|rs| - 1]))
  }

  lemma {:induction false} InsertSorted(x: Reference, s: seq<Reference>)
    requires SortedDesc(s)
    ensures SortedDesc(Insert(x, s))
    ensures Insert(x, s)[0] == (if s != [] && s[0].score >= x.score then s[0] else x)
  {
    if s != [] && s[0].score >= x.score {
      InsertSorted(x, s[1..]);
      var r := [s[0]] + Insert(x, s[1..]);
      assert r[1] == Insert(x, s[1..])[0];
      assert r[1..] == Insert(x, s[1..]);
    }
  }

  /** The sort leaves the scores in non-increasing order. */
  lemma {:induction false} SortSorted(rs: seq<Reference>)
    ensures SortedDesc(SortDesc(rs))
  {
    if rs != [] {
      SortSorted(rs[..|rs| - 1]);
      InsertSorted(rs[|rs| - 1], SortDesc(rs[..|rs| - 1]));
    }
  }

  /** In a sorted list every later score is at most every earlier one. */
  lemma {:induction false} SortedPairs(rs: seq<Reference>, i: nat, j: nat)
    requires SortedDesc(rs) && i <= j < |rs|
    ensures rs[j].score <= rs[i].score
    decreases j - i
  {
    if i < j {
      SortedPairs(rs, i, j - 1);
    }
  }

  /** Insertion adds `x` and nothing else. */
  lemma {:induction false} InsertPerm(x: Reference, s: seq<Reference>)
    ensures multiset(Insert(x, s)) == multiset(s) + multiset{x}
  {
    if s != [] && s[0].score >= x.score {
      InsertPerm(x, s[1..]);
      assert s == [s[0]] + s[1..];
    }
  }

  /** The sort is a permutation. */
  lemma {:induction false} SortPerm(rs: seq<Reference>)
    ensures multiset(SortDesc(rs)) == multiset(rs)
  {
    if rs != [] {
      SortPerm(rs[..|rs| - 1]);
      InsertPerm(rs[|rs| - 1], SortDesc(rs[..|rs| - 1]));
      assert rs == rs[..|rs| - 1] + [rs[|rs| - 1]];
    }
  }

  lemma {:induction false} WithScoreAppend(a: seq<Reference>, b: seq<Reference>, v: real)
    ensures WithScore(a + b, v) == WithScore(a, v) + WithScore(b, v)
  {
    if a != [] {
      WithScoreAppend(a[1..], b, v);
      assert (a + b)[1..] == a[1..] + b;
    } else {
      assert a + b == b;
    }
  }

  /** A sorted list whose first score is below `v` has nothing scoring `v`. */
  lemma {:induction false} NoneWithScore(s: seq<Reference>, v: real)
    requires SortedDesc(s) && (s != [] ==> s[0].score < v)
    ensures WithScore(s, v) == []
  {
    if s != [] {
      NoneWithScore(s[1..], v);
    }
  }

  lemma {:induction false} InsertStable(x: Reference, s: seq<Reference>, v: real)
    requires SortedDesc(s)
    ensures WithScore(Insert(x, s), v) == WithScore(s, v) + (if x.score == v then [x] else [])
  {
    if s == [] {
    } else if s[0].score >= x.score {
      InsertStable(x, s[1..], v);
      assert ([s[0]] + Insert(x, s[1..]))[1..] == Insert(x, s[1..]);
    } else {
      assert ([x] + s)[1..] == s;
      if x.score == v {
        NoneWithScore(s, v);
      }
    }
  }

  /** The sort is stable: for every score, the references with that score
      are in the order they had before. */
  lemma {:induction false} SortStable(rs: seq<Reference>, v: real)
    ensures WithScore(SortDesc(rs), v) == WithScore(rs, v)
  {
    if rs != [] {
      var init := rs[..|rs| - 1];
      var last := rs[|rs| - 1];
      SortStable(init, v);
      SortSorted(init);
      InsertStable(last, SortDesc(init), v);
      assert rs == init + [last];
      WithScoreAppend(init, [last], v);
    }
  }

  // ---------------------------------------------------------------------
  // Truncation to `top_k`

  /** `results[:top_k]` after the sort. */
  function Ranked(query: Vector, chunks: seq<StoredChunk>, settings: RagSettings,
                  ratio: (real, real, real) -> real, round: real -> real): seq<Reference>
  {
    SliceTo(SortDesc(Candidates(query, chunks, settings.scoreThreshold, ratio, round)), settings.topK)
  }

  /** The ranking of `build_rag_context`: scan, sort, truncate. */
  method RankChunks(query: Vector, chunks: seq<StoredChunk>, settings: RagSettings,
                    ratio: (real, real, real) -> real, round: real -> real)
      returns (results: seq<Reference>)
    ensures results == Ranked(query, chunks, settings, ratio, round)
  {
    results := ScoreChunks(query, chunks, settings.scoreThreshold, ratio, round);
    results := SortDesc(results);
    results := SliceTo(results, settings.topK);
  }

  /** The ranked references are sorted by score and are candidates, so
      each comes from a kept chunk. */
  lemma RankedSound(query: Vector, chunks: seq<StoredChunk>, settings: RagSettings,
                    ratio: (real, real, real) -> real, round: real -> real)
    ensures var rs := Ranked(query, chunks, settings, ratio, round);
      && SortedDesc(rs)
      && forall r :: r in rs ==> r in Candidates(query, chunks, settings.scoreThreshold, ratio, round)
  {
    var cands := Candidates(query, chunks, settings.scoreThreshold, ratio, round);
    var sorted := SortDesc(cands);
    SortSorted(cands);
    SortPerm(cands);
    var rs := SliceTo(sorted, settings.topK);
    assert sorted == rs + sorted[|rs|..];
    forall r | r in rs ensures r in cands {
      assert r in multiset(sorted);
    }
  }

  /** There are `top_k` ranked references, or all candidates if fewer
      (for a negative `top_k`, all but the last `-top_k`). */
  lemma RankedCount(query: Vector, chunks: seq<StoredChunk>, settings: RagSettings,
                    ratio: (real, real, real) -> real, round: real -> real)
    ensures var n := |Candidates(query, chunks, settings.scoreThreshold, ratio, round)|;
      var rs := Ranked(query, chunks, settings, ratio, round);
      && (settings.topK >= 0 ==> |rs| == Min(settings.topK, n))
      && (settings.topK < 0 ==> |rs| == Max(n + settings.topK, 0))
  {
  }

  /** Truncation keeps the best: no reference cut off scores higher than
      any reference kept. */
  lemma RankedBest(query: Vector, chunks: seq<StoredChunk>, settings: RagSettings,
                   ratio: (real, real, real) -> real, round: real -> real, i: nat, j: nat)
    requires var sorted := SortDesc(Candidates(query, chunks, settings.scoreThreshold, ratio, round));
      i < |Ranked(query, chunks, settings, ratio, round)| <= j < |sorted|
    ensures var sorted := SortDesc(Candidates(query, chunks, settings.scoreThreshold, ratio, round));
      sorted[j].score <= Ranked(query, chunks, settings, ratio, round)[i].score
  {
    var sorted := SortDesc(Candidates(query, chunks, settings.scoreThreshold, ratio, round));
    SortSorted(Candidates(query, chunks, settings.scoreThreshold, ratio, round));
    SortedPairs(sorted, i, j);
  }

  /** References of equal score stay in store order after the truncation. */
  lemma RankedStable(query: Vector, chunks: seq<StoredChunk>, settings: RagSettings,
                     ratio: (real, real, real) -> real, round: real -> real, v: real)
    ensures WithScore(Ranked(query, chunks, settings, ratio, round), v)
         <= WithScore(Candidates(query, chunks, settings.scoreThreshold, ratio, round), v)
  {
    var cands := Candidates(query, chunks, settings.scoreThreshold, ratio, round);
    var sorted := SortDesc(cands);
    var rs := SliceTo(sorted, settings.topK);
    SortStable(cands, v);
    assert sorted == rs + sorted[|rs|..];
    WithScoreAppend(rs, sorted[|rs|..], v);
  }

  function Min(a: int, b: int): int {
    if a < b then a else b
  }

  function Max(a: int, b: int): int {
    if a < b then b else a
  }

  // ---------------------------------------------------------------------
  // The context block handed to the model

  const Header := "Here are relevant references:\n\n"
  const Footer := "Please answer based on the above references. If there's no relevant information, answer based on your knowledge.\n\n"

  /** `f"[Reference {n}] (Relevance: {score:.2f})\n{content}\n\n"`, with the
      two-decimal formatting given as `fmt`. */
  function Entry(n: nat, r: Reference, fmt: real -> string): string {
    "[Reference " + Decimal(n) + "] (Relevance: " + fmt(r.score) + ")\n" + r.content + "\n\n"
  }

  /** The entries for `rs`, numbered from 1. */
  function Entries(rs: seq<Reference>, fmt: real -> string): string {
    if rs == [] then ""
    else Entries(rs[..|rs| - 1], fmt) + Entry(|rs|, rs[|rs| - 1], fmt)
  }

  /** `build_rag_context(query)`: the context string and the references. */
  function RagContext(query: Vector, chunks: seq<StoredChunk>, settings: RagSettings,
                      ratio: (real, real, real) -> real, round: real -> real, fmt: real -> string)
    : (string, seq<Reference>)
  {
    if query == [] || chunks == [] then ("", [])
    else
      var rs := Ranked(query, chunks, settings, ratio, round);
      if rs == [] then ("", [])
      else (Header + Entries(rs, fmt) + Footer, rs)
  }

  /** `build_rag_context`: the early returns, the ranking, the numbered
      entries between header and footer, and the references list. */
  method BuildRagContext(query: Vector, chunks: seq<StoredChunk>, settings: RagSettings,
                         ratio: (real, real, real) -> real, round: real -> real, fmt: real -> string)
      returns (context: string, references: seq<Reference>)
    ensures (context, references) == RagContext(query, chunks, settings, ratio, round, fmt)
  {
    if query == [] {
      return "", [];
    }
    if chunks == [] {
      return "", [];
    }
    var results := RankChunks(query, chunks, settings, ratio, round);
    if results == [] {
      return "", [];
    }
    context := FormatContext(results, fmt);
    references := seq(|results|, k requires 0 <= k < |results| => Reference(results[k].content, results[k].score));
    assert references == results;
  }

  /** The context block: header, one numbered entry per result, footer. */
  method FormatContext(results: seq<Reference>, fmt: real -> string) returns (context: string)
    ensures context == Header + Entries(results, fmt) + Footer
  {
    context := Header;
    var i := 0;
    while i < |results|
      invariant i <= |results|
      invariant context == Header + Entries(results[..i], fmt)
    {
      var entry := Entry(i + 1, results[i], fmt);
      TakeOneMore(results, i);
      EntriesSnoc(results[..i], results[i], fmt);
      Concat3(Header, Entries(results[..i], fmt), entry);
      context := context + entry;
      i := i + 1;
    }
    assert results[..i] == results;
    context := context + Footer;
  }

  /** There is a context exactly when there are references, and there are
      references exactly when the query has an embedding and some chunk
      passes the threshold with a positive `top_k`. */
  lemma RagContextEmpty(query: Vector, chunks: seq<StoredChunk>, settings: RagSettings,
                        ratio: (real, real, real) -> real, round: real -> real, fmt: real -> string)
    ensures var (context, refs) := RagContext(query, chunks, settings, ratio, round, fmt);
      && (context == "" <==> refs == [])
      && (refs == [] <==> query == [] || Ranked(query, chunks, settings, ratio, round) == [])
  {
    var (context, refs) := RagContext(query, chunks, settings, ratio, round, fmt);
    if refs != [] {
      assert |context| >= |Header|;
    }
    if chunks == [] {
      assert Candidates(query, chunks, settings.scoreThreshold, ratio, round) == [];
    }
  }

  /** With a query embedding, the references are the ranked results, and
      the context is the header, one entry per reference and the footer. */
  lemma RagContextRefs(query: Vector, chunks: seq<StoredChunk>, settings: RagSettings,
                       ratio: (real, real, real) -> real, round: real -> real, fmt: real -> string)
    requires query != []
    ensures var (context, refs) := RagContext(query, chunks, settings, ratio, round, fmt);
      && refs == Ranked(query, chunks, settings, ratio, round)
      && (refs != [] ==> context == Header + Entries(refs, fmt) + Footer)
  {
    if chunks == [] {
      assert Candidates(query, chunks, settings.scoreThreshold, ratio, round) == [];
    }
  }

  /** The entries of the first `k` references begin the entries of all. */
  lemma {:induction false} EntriesPrefix(rs: seq<Reference>, k: nat, fmt: real -> string)
    requires k <= |rs|
    ensures Entries(rs[..k], fmt) <= Entries(rs, fmt)
    decreases |rs|
  {
    if k < |rs| {
      var init := rs[..|rs| - 1];
      EntriesPrefix(init, k, fmt);
      assert init[..k] == rs[..k];
    } else {
      assert rs[..k] == rs;
    }
  }

  /** Reference `k` (counting from 0) is listed as `[Reference k+1]` with
      its score and text, right after the entries before it. */
  lemma EntryListed(rs: seq<Reference>, k: nat, fmt: real -> string)
    requires k < |rs|
    ensures Entries(rs[..k], fmt) + Entry(k + 1, rs[k], fmt) <= Entries(rs, fmt)
  {
    EntriesPrefix(rs, k + 1, fmt);
    EntriesSnoc(rs[..k], rs[k], fmt);
    TakeOneMore(rs, k);
  }

  lemma TakeOneMore<T>(s: seq<T>, k: nat)
    requires k < |s|
    ensures s[..k + 1] == s[..k] + [s[k]]
  {
  }

  lemma Concat3<T>(a: seq<T>, b: seq<T>, c: seq<T>)
    ensures a + b + c == a + (b + c)
  {
  }

  /** One more reference adds one more entry, numbered after the others. */
  lemma EntriesSnoc(rs: seq<Reference>, r: Reference, fmt: real -> string)
    ensures Entries(rs + [r], fmt) == Entries(rs, fmt) + Entry(|rs| + 1, r, fmt)
  {
    var p := rs + [r];
    assert p[..|p| - 1] == rs;
  }
}
