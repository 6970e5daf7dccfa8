/** `filter_similar_news`: a greedy de-duplication of news records. Each
    record is compared, title against title, with every record already kept;
    the first "similar" answer drops it, otherwise it is kept. The language
    model behind the comparison is an arbitrary function from the two titles
    to the model's answer text. */
module Filter {
  import opened Text
  import opened Sequences
  import Finder

  type News = Finder.Record

  /** The answer the prompt asks for when two titles report the same story
      ("유사", "similar"). */
  const SimilarAnswer: string := "\U{C720}\U{C0AC}"

  /** The similarity chain: the model's answer for `(title1, title2)`. */
  type Judge = (string, string) -> string

  /** The answer counts as "similar" after `strip()` and `lower()`. */
  predicate IsSimilarAnswer(response: string) {
    Lower(Strip(response)) == SimilarAnswer
  }

  /** Whether a candidate resembles a kept record; the selection below is
      stated for any such relation. */
  type Similarity = (News, News) -> bool

  /** The relation the chain induces on records: the candidate goes in as
      `title1`, the kept record as `title2`. */
  function Resemblance(judge: Judge): Similarity {
    (candidate: News, kept: News) => IsSimilarAnswer(judge(candidate.title, kept.title))
  }

  /** The inner loop finds a similar record among those kept so far. */
  predicate IsDuplicate(sim: Similarity, candidate: News, kept: seq<News>) {
    exists k :: 0 <= k < |kept| && sim(candidate, kept[k])
  }

  /** One iteration of the outer loop. */
  function Step(sim: Similarity, kept: seq<News>, candidate: News): seq<News> {
    if IsDuplicate(sim, candidate, kept) then kept else kept + [candidate]
  }

  /** The outer loop from a given list of kept records. */
  function FilterFrom(sim: Similarity, kept: seq<News>, rest: seq<News>): seq<News>
    decreases |rest|
  {
    if rest == [] then kept else FilterFrom(sim, Step(sim, kept, rest[0]), rest[1..])
  }

  /** No kept record is judged similar to one kept before it. */
  predicate NoSimilarPair(sim: Similarity, s: seq<News>) {
    forall i, j :: 0 <= i < j < |s| ==> !sim(s[j], s[i])
  }

  /** Every input record is kept, or was judged similar to a kept one. */
  predicate Covered(sim: Similarity, news: seq<News>, out: seq<News>) {
    forall k :: 0 <= k < |news| ==>
      exists j :: 0 <= j < |out| && (out[j] == news[k] || sim(news[k], out[j]))
  }

  /** The greedy selection: an order-preserving selection of the input in
      which no record resembles an earlier one, dropping a record only for
      resembling one that is kept. The first record always stays. */
  function Dedup(sim: Similarity, news: seq<News>): (out: seq<News>)
    ensures IsSubseq(out, news)
    ensures NoSimilarPair(sim, out)
    ensures Covered(sim, news, out)
    ensures news != [] ==> out != [] && out[0] == news[0]
  {
    DedupSound(sim, news);
    FilterFrom(sim, [], news)
  }

  /** `filter_similar_news`. */
  function FilterSimilar(judge: Judge, news: seq<News>): seq<News> {
    Dedup(Resemblance(judge), news)
  }

  // ---------------------------------------------------------------------
  // The answer check

  /** Only the exact answer, up to surrounding whitespace, counts: the
      answer word is Hangul, which has no letter case. */
  lemma SimilarAnswerExact(response: string)
    ensures IsSimilarAnswer(response) <==> Strip(response) == SimilarAnswer
  {
    LowerKeepsAnswer(Strip(response));
  }

  lemma LowerKeepsAnswer(t: string)
    ensures Lower(t) == SimilarAnswer <==> t == SimilarAnswer
  {
    var u := Lower(t);
    if |t| == 2 {
      assert u[0] == LowerChar(t[0]) && u[1] == LowerChar(t[1]);
      assert u == SimilarAnswer <==> u[0] == '\U{C720}' && u[1] == '\U{C0AC}';
      assert t == SimilarAnswer <==> t[0] == '\U{C720}' && t[1] == '\U{C0AC}';
    } else {
      assert |u| != |SimilarAnswer|;
    }
  }

  // ---------------------------------------------------------------------
  // The fold, read from the end

  /** Filtering one more record is one more step of the outer loop. */
  lemma {:induction false} FilterFromSnoc(sim: Similarity, kept: seq<News>, rest: seq<News>, x: News)
    ensures FilterFrom(sim, kept, rest + [x]) == Step(sim, FilterFrom(sim, kept, rest), x)
    decreases |rest|
  {
    if rest == [] {
      assert rest + [x] == [x];
      assert [x][1..] == [];
    } else {
      assert (rest + [x])[0] == rest[0];
      assert (rest + [x])[1..] == rest[1..] + [x];
      FilterFromSnoc(sim, Step(sim, kept, rest[0]), rest[1..], x);
    }
  }

  lemma FilterSnoc(sim: Similarity, news: seq<News>, x: News)
    ensures FilterFrom(sim, [], news + [x]) == Step(sim, FilterFrom(sim, [], news), x)
  {
    FilterFromSnoc(sim, [], news, x);
  }

  lemma {:induction false} DedupSound(sim: Similarity, news: seq<News>)
    ensures var out := FilterFrom(sim, [], news);
      && IsSubseq(out, news)
      && NoSimilarPair(sim, out)
      && Covered(sim, news, out)
      && (news != [] ==> out != [] && out[0] == news[0])
    decreases |news|
  {
    if news == [] {
    } else {
      var init, x := news[..|news| - 1], news[|news| - 1];
      assert news == init + [x];
      DedupSound(sim, init);
      FilterSnoc(sim, init, x);
      var prev := FilterFrom(sim, [], init);
      StepSound(sim, init, prev, x);
    }
  }

  /** The invariants of the outer loop survive one iteration. */
  lemma StepSound(sim: Similarity, init: seq<News>, prev: seq<News>, x: News)
    requires IsSubseq(prev, init)
    requires NoSimilarPair(sim, prev)
    requires Covered(sim, init, prev)
    requires init != [] ==> prev != [] && prev[0] == init[0]
    ensures var out := Step(sim, prev, x);
      && IsSubseq(out, init + [x])
      && NoSimilarPair(sim, out)
      && Covered(sim, init + [x], out)
      && (out != [] && out[0] == (init + [x])[0])
  {
    var news := init + [x];
    if IsDuplicate(sim, x, prev) {
      SubseqConcat(prev, init, [], [x]);
      assert prev + [] == prev;
      if init == [] {
        SubseqLength(prev, init);
      }
    } else {
      var out := prev + [x];
      assert IsSubseq([x], [x]) by { assert [x][1..] == []; }
      SubseqConcat(prev, init, [x], [x]);
      assert out[|prev|] == x;
      forall k | 0 <= k < |news|
        ensures exists j :: 0 <= j < |out| && (out[j] == news[k] || sim(news[k], out[j]))
      {
        if k < |init| {
          assert news[k] == init[k];
          var j :| 0 <= j < |prev| && (prev[j] == init[k] || sim(init[k], prev[j]));
          assert out[j] == prev[j];
        } else {
          assert out[|prev|] == news[k];
        }
      }
      if init == [] {
        SubseqLength(prev, init);
        assert out == [x];
      }
    }
  }

  // ---------------------------------------------------------------------
  // Fixed points and degenerate judges

  /** A list with no similar pair passes through unchanged. */
  lemma {:induction false} NoSimilarPairIsFixed(sim: Similarity, s: seq<News>)
    requires NoSimilarPair(sim, s)
    ensures Dedup(sim, s) == s
    decreases |s|
  {
    if s != [] {
      var init, x := s[..|s| - 1], s[|s| - 1];
      assert s == init + [x];
      assert NoSimilarPair(sim, init) by {
        forall i, j | 0 <= i < j < |init|
          ensures !sim(init[j], init[i])
        {
          assert init[i] == s[i] && init[j] == s[j];
        }
      }
      NoSimilarPairIsFixed(sim, init);
      FilterSnoc(sim, init, x);
      forall k | 0 <= k < |init|
        ensures !sim(x, init[k])
      {
        assert init[k] == s[k];
      }
    }
  }

  /** Filtering twice is filtering once. */
  lemma FilterIdempotent(sim: Similarity, news: seq<News>)
    ensures Dedup(sim, Dedup(sim, news)) == Dedup(sim, news)
  {
    NoSimilarPairIsFixed(sim, Dedup(sim, news));
  }

  /** A relation that never holds keeps every record. */
  lemma UnrelatedKeepsAll(sim: Similarity, news: seq<News>)
    requires forall a, b :: !sim(a, b)
    ensures Dedup(sim, news) == news
  {
    NoSimilarPairIsFixed(sim, news);
  }

  /** A relation that holds everywhere keeps only the first record. */
  lemma {:induction false} AllRelatedKeepsFirst(sim: Similarity, news: seq<News>)
    requires forall a, b :: sim(a, b)
    ensures Dedup(sim, news) == if news == [] then [] else [news[0]]
    decreases |news|
  {
    if |news| > 1 {
      var init, x := news[..|news| - 1], news[|news| - 1];
      assert news == init + [x];
      AllRelatedKeepsFirst(sim, init);
      FilterSnoc(sim, init, x);
      assert sim(x, news[0]);
      assert IsDuplicate(sim, x, [news[0]]);
    } else if |news| == 1 {
      FilterSnoc(sim, [], news[0]);
      assert [] + [news[0]] == news;
    }
  }

  /** A model that never answers "similar" keeps every record. */
  lemma NeverSimilarKeepsAll(judge: Judge, news: seq<News>)
    requires forall t1, t2 :: !IsSimilarAnswer(judge(t1, t2))
    ensures FilterSimilar(judge, news) == news
  {
    var sim := Resemblance(judge);
    forall a, b
      ensures !sim(a, b)
    {
      assert sim(a, b) == IsSimilarAnswer(judge(a.title, b.title));
    }
    UnrelatedKeepsAll(sim, news);
  }

  /** A model that always answers "similar" keeps only the first record. */
  lemma AlwaysSimilarKeepsFirst(judge: Judge, news: seq<News>)
    requires forall t1, t2 :: IsSimilarAnswer(judge(t1, t2))
    ensures FilterSimilar(judge, news) == if news == [] then [] else [news[0]]
  {
    var sim := Resemblance(judge);
    forall a, b
      ensures sim(a, b)
    {
      assert sim(a, b) == IsSimilarAnswer(judge(a.title, b.title));
    }
    AllRelatedKeepsFirst(sim, news);
  }

  // ---------------------------------------------------------------------
  // Dropping is decided against the records kept so far

  /** What was kept from a prefix of the input is a prefix of the final
      result: records are only ever appended. */
  lemma {:induction false} DedupPrefix(sim: Similarity, news: seq<News>, k: nat)
    requires k <= |news|
    ensures Dedup(sim, news[..k]) <= Dedup(sim, news)
    decreases |news| - k
  {
    if k < |news| {
      DedupPrefix(sim, news, k + 1);
      assert news[..k + 1] == news[..k] + [news[k]];
      FilterSnoc(sim, news[..k], news[k]);
    } else {
      assert news[..k] == news;
    }
  }

  /** The record at position `k` is dropped exactly when the model judged it
      similar to a record kept before it, one that stays in the result at
      the same position. */
  lemma DroppedForEarlierKept(sim: Similarity, news: seq<News>, k: nat)
    requires k < |news|
    ensures var before := Dedup(sim, news[..k]);
      && before <= Dedup(sim, news)
      && (Dedup(sim, news[..k + 1]) == before <==>
            exists j :: 0 <= j < |before| && sim(news[k], before[j]) && before[j] == Dedup(sim, news)[j])
      && (Dedup(sim, news[..k + 1]) != before ==> Dedup(sim, news[..k + 1]) == before + [news[k]])
  {
    var before := Dedup(sim, news[..k]);
    assert news[..k + 1] == news[..k] + [news[k]];
    FilterSnoc(sim, news[..k], news[k]);
    DedupPrefix(sim, news, k);
    if !IsDuplicate(sim, news[k], before) {
      assert |before + [news[k]]| != |before|;
    }
  }

  // ---------------------------------------------------------------------
  // The loops as written

  /** The inner loop: asks the model about each kept record in turn and
      stops at the first "similar" answer. `calls` is the number of answers
      it asked for. */
  method FindSimilar(judge: Judge, candidate: News, kept: seq<News>) returns (isSimilar: bool, calls: nat)
    ensures isSimilar == IsDuplicate(Resemblance(judge), candidate, kept)
    ensures calls <= |kept|
    ensures !isSimilar ==> calls == |kept|
    ensures isSimilar ==> 1 <= calls && Resemblance(judge)(candidate, kept[calls - 1])
    ensures forall k :: 0 <= k < calls - 1 ==> !Resemblance(judge)(candidate, kept[k])
  {
    var sim := Resemblance(judge);
    isSimilar, calls := false, 0;
    while calls < |kept|
      invariant 0 <= calls <= |kept|
      invariant forall k :: 0 <= k < calls ==> !sim(candidate, kept[k])
    {
      var response := judge(candidate.title, kept[calls].title);
      assert IsSimilarAnswer(response) == sim(candidate, kept[calls]);
      if IsSimilarAnswer(response) {
        isSimilar := true;
        calls := calls + 1;
        return;
      }
      calls := calls + 1;
    }
  }

  /** `filter_similar_news` with its two loops. `calls` counts the queries
      sent to the model: at most one per pair of input records, and one per
      pair exactly when nothing is dropped. */
  method FilterSimilarNews(judge: Judge, news: seq<News>) returns (filtered: seq<News>, calls: nat)
    ensures filtered == FilterSimilar(judge, news)
    ensures calls <= Pairs(|news|)
    ensures |filtered| == |news| ==> calls == Pairs(|news|)
  {
    var sim := Resemblance(judge);
    filtered, calls := [], 0;
    var i := 0;
    while i < |news|
      invariant 0 <= i <= |news|
      invariant filtered == FilterFrom(sim, [], news[..i])
      invariant |filtered| <= i
      invariant calls <= Pairs(i)
      invariant |filtered| == i ==> calls == Pairs(i)
    {
      var candidate := news[i];
      var isSimilar, asked := FindSimilar(judge, candidate, filtered);
      calls := calls + asked;
      FilterSnoc(sim, news[..i], candidate);
      assert news[..i + 1] == news[..i] + [candidate];
      if !isSimilar {
        filtered := filtered + [candidate];
      }
      i := i + 1;
    }
    assert news[..i] == news;
  }

  /** The number of unordered pairs among `n` records. */
  function Pairs(n: nat): nat {
    if n == 0 then 0 else Pairs(n - 1) + (n - 1)
  }

  lemma {:induction false} PairsClosedForm(n: nat)
    ensures 2 * Pairs(n) == n * (n - 1)
  {
    if n > 0 {
      PairsClosedForm(n - 1);
      assert n * (n - 1) == (n - 1) * (n - 2) + 2 * (n - 1);
    }
  }
}
