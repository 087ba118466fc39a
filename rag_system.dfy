/**
 * The retrieval side of the assistant: token estimates, loading the
 * pages of a PDF into one text, keyword scoring, ranking and the
 * budgeted choice of pages that forms the context of a question.
 * Page texts are given (text extraction is outside the model), and the
 * language model's reply is an input to `Query`.
 */
module Rag {
  import opened Common
  import opened Strings

  /** `count_tokens`: a quarter of the length, rounded down. */
  function CountTokens(t: string): (n: nat)
    ensures 4 * n <= |t| < 4 * n + 4
  {
    |t| / 4
  }

  /** What text extraction gave for one page: a string, `None`, or an exception. */
  datatype Page = Text(text: string) | NoText | Unreadable(error: string)

  /** An entry of `page_texts`. */
  datatype PageRecord = PageRecord(pageNum: nat, text: string, tokens: nat)

  /** `page_text and page_text.strip()`. */
  predicate Keep(p: Page) {
    p.Text? && !IsBlank(p.text)
  }

  /** The records kept for a run of readable pages: the non-blank ones, numbered from 1. */
  function KeptRecords(pages: seq<Page>): (recs: seq<PageRecord>)
    ensures |recs| <= |pages|
  {
    if pages == [] then []
    else
      var n := |pages|;
      var prev := KeptRecords(pages[..n - 1]);
      var last := pages[n - 1];
      if Keep(last) then prev + [PageRecord(n, last.text, CountTokens(last.text))] else prev
  }

  /** Each record is a non-blank page, with its 1-based number, its text and a quarter of its length in tokens. */
  predicate RecordsFrom(pages: seq<Page>, recs: seq<PageRecord>) {
    forall j :: 0 <= j < |recs| ==>
      1 <= recs[j].pageNum <= |pages| && Keep(pages[recs[j].pageNum - 1]) &&
      recs[j].text == pages[recs[j].pageNum - 1].text && recs[j].tokens == CountTokens(recs[j].text)
  }

  predicate InPageOrder(recs: seq<PageRecord>) {
    forall j, k :: 0 <= j < k < |recs| ==> recs[j].pageNum < recs[k].pageNum
  }

  /** Every non-blank page has a record. */
  predicate AllKept(pages: seq<Page>, recs: seq<PageRecord>) {
    forall i :: 0 <= i < |pages| && Keep(pages[i]) ==> exists j :: 0 <= j < |recs| && recs[j].pageNum == i + 1
  }

  lemma {:induction false} KeptRecordsUnfold(pages: seq<Page>)
    requires pages != []
    ensures var n := |pages|; var prev := KeptRecords(pages[..n - 1]);
      KeptRecords(pages) ==
        if Keep(pages[n - 1]) then prev + [PageRecord(n, pages[n - 1].text, CountTokens(pages[n - 1].text))] else prev
  {
  }

  /** Reading one more page adds its record exactly when it is kept. */
  lemma KeptStep(pages: seq<Page>, i: nat)
    requires i < |pages|
    ensures KeptRecords(pages[..i + 1]) ==
      if Keep(pages[i]) then KeptRecords(pages[..i]) + [PageRecord(i + 1, pages[i].text, CountTokens(pages[i].text))]
      else KeptRecords(pages[..i])
  {
    assert pages[..i + 1][..i] == pages[..i];
  }

  /** Each kept record is a non-blank page with its own number, text and token estimate. */
  lemma {:induction false} KeptRecordsSound(pages: seq<Page>)
    ensures RecordsFrom(pages, KeptRecords(pages))
  {
    if pages != [] {
      var n := |pages|;
      var init := pages[..n - 1];
      var prev := KeptRecords(init);
      var recs := KeptRecords(pages);
      KeptRecordsSound(init);
      KeptRecordsUnfold(pages);
      forall j | 0 <= j < |recs|
        ensures 1 <= recs[j].pageNum <= |pages| && Keep(pages[recs[j].pageNum - 1]) &&
          recs[j].text == pages[recs[j].pageNum - 1].text && recs[j].tokens == CountTokens(recs[j].text)
      {
        if j < |prev| {
          assert recs[j] == prev[j];
          assert 1 <= prev[j].pageNum <= |init|;
          assert init[prev[j].pageNum - 1] == pages[prev[j].pageNum - 1];
        }
      }
    }
  }

  /** The kept records are in increasing page order. */
  lemma {:induction false} KeptRecordsOrdered(pages: seq<Page>)
    ensures InPageOrder(KeptRecords(pages))
  {
    if pages != [] {
      var n := |pages|;
      var init := pages[..n - 1];
      var prev := KeptRecords(init);
      var recs := KeptRecords(pages);
      KeptRecordsOrdered(init);
      KeptRecordsSound(init);
      KeptRecordsUnfold(pages);
      forall j, k | 0 <= j < k < |recs|
        ensures recs[j].pageNum < recs[k].pageNum
      {
        assert recs[j] == prev[j];
        if k < |prev| {
          assert recs[k] == prev[k];
        } else {
          assert prev[j].pageNum <= |init|;
        }
      }
    }
  }

  /** No non-blank page is dropped. */
  lemma {:induction false} KeptRecordsComplete(pages: seq<Page>)
    ensures AllKept(pages, KeptRecords(pages))
  {
    if pages != [] {
      var n := |pages|;
      var init := pages[..n - 1];
      var prev := KeptRecords(init);
      var recs := KeptRecords(pages);
      KeptRecordsComplete(init);
      KeptRecordsUnfold(pages);
      forall i | 0 <= i < n && Keep(pages[i])
        ensures exists j :: 0 <= j < |recs| && recs[j].pageNum == i + 1
      {
        if i < n - 1 {
          assert Keep(init[i]);
          var j :| 0 <= j < |prev| && prev[j].pageNum == i + 1;
          assert recs[j] == prev[j];
        } else {
          assert recs[|recs| - 1].pageNum == n;
        }
      }
    }
  }

  /** The separator written before each page's text. */
  function Header(pageNum: nat): string {
    "\n\n--- SAYFA " + NatToString(pageNum) + " ---\n\n"
  }

  /** The text built from records: each page's header followed by its text, in order. */
  function Render(recs: seq<PageRecord>): string {
    if recs == [] then []
    else Render(recs[..|recs| - 1]) + Header(recs[|recs| - 1].pageNum) + recs[|recs| - 1].text
  }

  lemma RenderSnoc(recs: seq<PageRecord>, rec: PageRecord)
    ensures Render(recs + [rec]) == Render(recs) + Header(rec.pageNum) + rec.text
  {
    assert (recs + [rec])[..|recs|] == recs;
  }

  /** A rendered text of at least one page starts with the header of its first page. */
  lemma {:induction false} RenderStartsWithHeader(recs: seq<PageRecord>)
    requires recs != []
    ensures HasPrefix(Render(recs), Header(recs[0].pageNum))
    ensures |Render(recs)| >= 3 && Render(recs)[2] == '-'
  {
    var init := recs[..|recs| - 1];
    var last := recs[|recs| - 1];
    if init == [] {
      assert recs[0] == last;
      FirstBlock(Render(recs), Render(init), Header(last.pageNum), last.text);
    } else {
      RenderStartsWithHeader(init);
      assert init[0] == recs[0];
      LaterBlock(Render(recs), Render(init), Header(recs[0].pageNum), Header(last.pageNum), last.text);
    }
    HeaderDash(recs[0].pageNum, Render(recs));
  }

  lemma FirstBlock(r: string, i: string, h: string, t: string)
    requires r == i + h + t && i == []
    ensures HasPrefix(r, h)
  {
    assert r[..|h|] == h;
  }

  lemma LaterBlock(r: string, i: string, p: string, h: string, t: string)
    requires r == i + h + t && HasPrefix(i, p)
    ensures HasPrefix(r, p)
  {
    assert r[..|p|] == i[..|p|];
  }

  /** A header is longer than four characters and its third is '-'. */
  lemma HeaderShape(n: nat)
    ensures |Header(n)| > 4 && Header(n)[2] == '-'
  {
  }

  /** Every header's third character is '-', so is that of every text starting with one. */
  lemma HeaderDash(n: nat, t: string)
    requires HasPrefix(t, Header(n))
    ensures |t| >= 3 && t[2] == '-'
  {
    HeaderShape(n);
    assert t[..|Header(n)|][2] == t[2];
  }

  /** The page indices the progress callback is given, among the first `k` of `total` pages. */
  function ProgressIndices(total: nat, k: nat): (r: seq<nat>)
    ensures |r| <= k
  {
    if k == 0 then []
    else
      var prev := ProgressIndices(total, k - 1);
      if (k - 1) % 5 == 0 || k - 1 == total - 1 then prev + [k - 1] else prev
  }

  /** Every report is a page before `k` whose index is a multiple of five or the last one. */
  predicate ProgressSound(total: nat, k: nat, r: seq<nat>) {
    forall j :: 0 <= j < |r| ==> r[j] < k && (r[j] % 5 == 0 || r[j] == total - 1)
  }

  predicate Increasing(r: seq<nat>) {
    forall j1, j2 :: 0 <= j1 < j2 < |r| ==> r[j1] < r[j2]
  }

  /**
   * The reports among the first `k` pages: exactly the pages whose index
   * is a multiple of five, plus the last page, in increasing order.
   */
  lemma {:induction false} ProgressIndicesShape(total: nat, k: nat)
    ensures ProgressSound(total, k, ProgressIndices(total, k))
    ensures forall i :: 0 <= i < k && (i % 5 == 0 || i == total - 1) ==> i in ProgressIndices(total, k)
    ensures Increasing(ProgressIndices(total, k))
  {
    if k > 0 {
      ProgressIndicesShape(total, k - 1);
      var prev := ProgressIndices(total, k - 1);
      var r := ProgressIndices(total, k);
      var last: nat := k - 1;
      if last % 5 == 0 || last == total - 1 {
        assert r == prev + [last];
        forall j | 0 <= j < |r| ensures r[j] < k && (r[j] % 5 == 0 || r[j] == total - 1) {
          if j < |prev| { assert r[j] == prev[j]; } else { assert r[j] == last; }
        }
        forall i | 0 <= i < k && (i % 5 == 0 || i == total - 1) ensures i in r {
          if i < last {
            assert i in prev;
            var t :| 0 <= t < |prev| && prev[t] == i;
            assert r[t] == i;
          } else {
            assert r[|r| - 1] == i;
          }
        }
        forall j1, j2 | 0 <= j1 < j2 < |r| ensures r[j1] < r[j2] {
          assert r[j1] == prev[j1];
          if j2 < |prev| { assert r[j2] == prev[j2]; } else { assert r[j2] == last; }
        }
      } else {
        assert r == prev;
      }
    }
  }


  /** A document of at least one page reports its last page last (where the percentage is 100). */
  lemma LastProgressIsLastPage(total: nat)
    requires total > 0
    ensures ProgressIndices(total, total) != []
    ensures ProgressIndices(total, total)[|ProgressIndices(total, total)| - 1] == total - 1
  {
  }

  /** The number of pages read before the first whose extraction raised. */
  function ReadableCount(pages: seq<Page>): (k: nat)
    ensures k <= |pages|
    ensures forall j :: 0 <= j < k ==> !pages[j].Unreadable?
    ensures k < |pages| ==> pages[k].Unreadable?
  {
    if pages == [] then 0
    else if pages[0].Unreadable? then 0
    else 1 + ReadableCount(pages[1..])
  }

  /** A readable page inside the readable run extends it past itself. */
  lemma ReadablePast(pages: seq<Page>, i: nat)
    requires i <= ReadableCount(pages) && i < |pages| && !pages[i].Unreadable?
    ensures i < ReadableCount(pages)
  {
  }

  /** An unreadable page inside the readable run is where it ends. */
  lemma ReadableStop(pages: seq<Page>, i: nat)
    requires i <= ReadableCount(pages) && i < |pages| && pages[i].Unreadable?
    ensures ReadableCount(pages) == i
  {
  }

  function PdfError(message: string): string {
    "PDF Hatas\U{131}: " + message
  }

  const NoPdfMessage: string := "L\U{FC}tfen \U{F6}nce bir PDF dosyas\U{131} y\U{FC}kleyin."
  const AskFallback: string := "###ASK_FALLBACK###"

  const Stopwords: set<string> :=
    {"bir", "ve", "i\U{E7}in", "ile", "mi", "m\U{131}", "mu", "m\U{FC}", "ne", "nas\U{131}l", "nedir"}

  /** The test of the comprehension in `_extract_keywords`: longer than two characters, not a stopword. */
  predicate Significant(w: string) {
    |w| > 2 && w !in Stopwords
  }

  /** The comprehension of `_extract_keywords`: words longer than two characters that are not stopwords. */
  function KeepKeywords(ws: seq<string>): (r: seq<string>)
    ensures |r| <= |ws|
    ensures forall w :: w in r ==> w in ws && |w| > 2 && w !in Stopwords
    ensures forall w :: w in ws && |w| > 2 && w !in Stopwords ==> w in r
  {
    if ws == [] then []
    else
      var rest := KeepKeywords(ws[1..]);
      if Significant(ws[0]) then [ws[0]] + rest else rest
  }

  /** A word `_extract_keywords` may return: longer than two characters, whitespace-free, no stopword. */
  predicate IsKeyword(w: string) {
    |w| > 2 && NoSpace(w) && w !in Stopwords
  }

  predicate AllKeywords(ws: seq<string>) {
    forall i :: 0 <= i < |ws| ==> IsKeyword(ws[i])
  }

  /** `_extract_keywords`. */
  function ExtractKeywords(question: string): (r: seq<string>)
    ensures AllKeywords(r)
  {
    var ws := Words(Lower(question));
    KeptAreKeywords(ws);
    KeepKeywords(ws)
  }

  /** The filter works word by word: it keeps the order of the words and their repetitions. */
  lemma {:induction false} KeepKeywordsAppend(a: seq<string>, b: seq<string>)
    ensures KeepKeywords(a + b) == KeepKeywords(a) + KeepKeywords(b)
  {
    if a == [] {
      assert a + b == b;
    } else {
      var h := if Significant(a[0]) then [a[0]] else [];
      KeepKeywordsStep(a, b, h);
      KeepKeywordsAppend(a[1..], b);
      SeqAssoc(h, KeepKeywords(a[1..]), KeepKeywords(b));
    }
  }

  /** The first word of `a` is filtered on its own, with or without `b` behind `a`. */
  lemma KeepKeywordsStep(a: seq<string>, b: seq<string>, h: seq<string>)
    requires a != [] && h == if Significant(a[0]) then [a[0]] else []
    ensures KeepKeywords(a) == h + KeepKeywords(a[1..])
    ensures KeepKeywords(a + b) == h + KeepKeywords(a[1..] + b)
  {
    assert (a + b)[0] == a[0];
    assert (a + b)[1..] == a[1..] + b;
  }

  lemma SeqAssoc(x: seq<string>, y: seq<string>, z: seq<string>)
    ensures x + (y + z) == (x + y) + z
  {
  }

  /** A single word is kept exactly when it is longer than two characters and not a stopword. */
  lemma KeepKeywordsSingle(w: string)
    ensures KeepKeywords([w]) == if |w| > 2 && w !in Stopwords then [w] else []
  {
    assert [w][1..] == [];
  }

  /**
   * `_extract_keywords` reads the question left to right: the keywords of
   * two texts joined by a space are those of the first, then those of the
   * second, repetitions included.
   */
  lemma ExtractKeywordsAppend(a: string, b: string)
    ensures ExtractKeywords(a + " " + b) == ExtractKeywords(a) + ExtractKeywords(b)
  {
    LowerAppend(a + " ", b);
    LowerAppend(a, " ");
    assert Lower(" ") == " " by {
      assert " "[1..] == [];
    }
    WordsSplit(Lower(a), ' ', Lower(b));
    KeepKeywordsAppend(Words(Lower(a)), Words(Lower(b)));
  }

  /** A single whitespace-free word yields its lowered form when that is a keyword, and nothing otherwise. */
  lemma ExtractKeywordsWord(w: string)
    requires w != [] && NoSpace(w)
    ensures var l := Lower(w);
      ExtractKeywords(w) == if |l| > 2 && l !in Stopwords then [l] else []
  {
    LowerNoSpace(w);
    WordsSingle(Lower(w));
    KeepKeywordsSingle(Lower(w));
  }

  /** What the filter keeps from whitespace-free words is long, whitespace-free and no stopword. */
  lemma {:induction false} KeptAreKeywords(ws: seq<string>)
    requires forall i :: 0 <= i < |ws| ==> NoSpace(ws[i])
    ensures AllKeywords(KeepKeywords(ws))
  {
    if ws != [] {
      KeptAreKeywords(ws[1..]);
      if |ws[0]| > 2 && ws[0] !in Stopwords {
        ConsKeyword(ws[0], KeepKeywords(ws[1..]));
      }
    }
  }

  lemma ConsKeyword(w: string, rest: seq<string>)
    requires IsKeyword(w) && AllKeywords(rest)
    ensures AllKeywords([w] + rest)
  {
    var r := [w] + rest;
    forall i | 0 <= i < |r| ensures IsKeyword(r[i]) {
      if i > 0 { assert r[i] == rest[i - 1]; }
    }
  }

  /** The occurrences of each keyword, duplicates included, in an already lowered text. */
  function Occurrences(lowered: string, keywords: seq<string>): nat {
    if keywords == [] then 0 else Count(lowered, keywords[0]) + Occurrences(lowered, keywords[1..])
  }

  /** `_score_page`. */
  function ScorePage(text: string, keywords: seq<string>): nat {
    Occurrences(Lower(text), keywords)
  }

  /** With non-empty keywords, a page scores above zero exactly when one of them occurs in it. */
  lemma {:induction false} ScorePositiveIff(lowered: string, keywords: seq<string>)
    requires forall i :: 0 <= i < |keywords| ==> keywords[i] != []
    ensures Occurrences(lowered, keywords) > 0 <==> exists i :: 0 <= i < |keywords| && Contains(lowered, keywords[i])
  {
    if keywords != [] {
      CountPositiveIffContains(lowered, keywords[0]);
      ScorePositiveIff(lowered, keywords[1..]);
      if exists i :: 0 <= i < |keywords| && Contains(lowered, keywords[i]) {
        var i :| 0 <= i < |keywords| && Contains(lowered, keywords[i]);
        if i > 0 {
          assert keywords[1..][i - 1] == keywords[i];
        }
      }
      if exists i :: 0 <= i < |keywords[1..]| && Contains(lowered, keywords[1..][i]) {
        var i :| 0 <= i < |keywords[1..]| && Contains(lowered, keywords[1..][i]);
        assert keywords[i + 1] == keywords[1..][i];
      }
    }
  }

  /** An entry of `scored_pages`. */
  datatype ScoredPage = ScoredPage(score: nat, page: PageRecord)

  function Scored(recs: seq<PageRecord>, keywords: seq<string>): (r: seq<ScoredPage>)
    ensures |r| == |recs|
    ensures forall i :: 0 <= i < |r| ==> r[i].page == recs[i]
  {
    if recs == [] then []
    else Scored(recs[..|recs| - 1], keywords) + [ScoredPage(ScorePage(recs[|recs| - 1].text, keywords), recs[|recs| - 1])]
  }

  predicate SortedByScore(s: seq<ScoredPage>) {
    forall i, j :: 0 <= i < j < |s| ==> s[i].score >= s[j].score
  }

  /** Places `x` before the first entry that does not outscore it. */
  function Insert(x: ScoredPage, s: seq<ScoredPage>): (r: seq<ScoredPage>)
    ensures multiset(r) == multiset(s) + multiset{x}
  {
    if s == [] || x.score >= s[0].score then [x] + s
    else
      assert s == [s[0]] + s[1..];
      [s[0]] + Insert(x, s[1..])
  }

  lemma {:induction false} InsertSorted(x: ScoredPage, s: seq<ScoredPage>)
    requires SortedByScore(s)
    ensures SortedByScore(Insert(x, s))
  {
    if s != [] && x.score < s[0].score {
      var rest := Insert(x, s[1..]);
      InsertSorted(x, s[1..]);
      var r := [s[0]] + rest;
      forall j | 0 < j < |r|
        ensures r[0].score >= r[j].score
      {
        assert r[j] in multiset(rest);
        assert r[j] == x || r[j] in multiset(s[1..]);
      }
    }
  }

  /** `scored_pages.sort(key=score, reverse=True)`: Python's stable sort, highest score first. */
  function SortByScore(s: seq<ScoredPage>): (r: seq<ScoredPage>)
    ensures multiset(r) == multiset(s)
    ensures SortedByScore(r)
  {
    if s == [] then []
    else
      assert s == [s[0]] + s[1..];
      var rest := SortByScore(s[1..]);
      InsertSorted(s[0], rest);
      Insert(s[0], rest)
  }

  /** Higher score first; among equal scores, the earlier page first. */
  predicate RankedBefore(a: ScoredPage, b: ScoredPage) {
    a.score > b.score || (a.score == b.score && a.page.pageNum < b.page.pageNum)
  }

  predicate Ranked(s: seq<ScoredPage>) {
    forall i, j :: 0 <= i < j < |s| ==> RankedBefore(s[i], s[j])
  }

  predicate IncreasingPages(s: seq<ScoredPage>) {
    forall i, j :: 0 <= i < j < |s| ==> s[i].page.pageNum < s[j].page.pageNum
  }

  lemma {:induction false} InsertRanked(x: ScoredPage, s: seq<ScoredPage>)
    requires Ranked(s)
    requires forall y :: y in s ==> x.page.pageNum < y.page.pageNum
    ensures Ranked(Insert(x, s))
  {
    if s != [] && x.score < s[0].score {
      var rest := Insert(x, s[1..]);
      InsertRanked(x, s[1..]);
      var r := [s[0]] + rest;
      assert r == Insert(x, s);
      forall j | 0 < j < |r|
        ensures RankedBefore(r[0], r[j])
      {
        assert r[j] in multiset(rest);
        assert r[j] == x || r[j] in multiset(s[1..]);
      }
    }
  }

  /** The sort is stable: with pages in increasing order, ties come out in page order. */
  lemma {:induction false} SortByScoreStable(s: seq<ScoredPage>)
    requires IncreasingPages(s)
    ensures Ranked(SortByScore(s))
  {
    if s != [] {
      SortByScoreStable(s[1..]);
      forall y | y in SortByScore(s[1..])
        ensures s[0].page.pageNum < y.page.pageNum
      {
        assert y in multiset(SortByScore(s[1..]));
        assert y in multiset(s[1..]);
      }
      InsertRanked(s[0], SortByScore(s[1..]));
    }
  }

  /** Scoring keeps the records' order, so records in page order give increasing pages. */
  lemma ScoredIncreasing(recs: seq<PageRecord>, keywords: seq<string>)
    requires InPageOrder(recs)
    ensures IncreasingPages(Scored(recs, keywords))
  {
  }

  /** The ranking of a read document is stable: highest score first, ties in page order. */
  lemma RankingRanked(pages: seq<Page>, question: string)
    ensures Ranked(Ranking(KeptRecords(pages), question))
  {
    var recs := KeptRecords(pages);
    KeptRecordsOrdered(pages);
    ScoredIncreasing(recs, ExtractKeywords(question));
    SortByScoreStable(Scored(recs, ExtractKeywords(question)));
  }

  function TokenSum(s: seq<ScoredPage>): int {
    if s == [] then 0 else TokenSum(s[..|s| - 1]) + s[|s| - 1].page.tokens
  }

  /** The greedy choice: pages in ranked order for as long as the running total stays within budget. */
  function Selected(ranked: seq<ScoredPage>, budget: int): (sel: seq<ScoredPage>)
    ensures |sel| <= |ranked| && sel == ranked[..|sel|]
    ensures sel == [] || TokenSum(sel) <= budget
    decreases |ranked|
  {
    if ranked == [] || ranked[0].page.tokens > budget then []
    else
      var rest := Selected(ranked[1..], budget - ranked[0].page.tokens);
      TokenSumCons(ranked[0], rest);
      [ranked[0]] + rest
  }

  /** The choice stops only at the end or at the first page that would overflow the budget. */
  lemma {:induction false} SelectedMaximal(ranked: seq<ScoredPage>, budget: int)
    ensures var sel := Selected(ranked, budget);
      sel == ranked || TokenSum(sel) + ranked[|sel|].page.tokens > budget
    decreases |ranked|
  {
    if ranked != [] && ranked[0].page.tokens <= budget {
      var b := budget - ranked[0].page.tokens;
      var rest := Selected(ranked[1..], b);
      SelectedMaximal(ranked[1..], b);
      var sel := [ranked[0]] + rest;
      assert sel == Selected(ranked, budget);
      if rest != ranked[1..] {
        var next := ranked[1..][|rest|];
        assert ranked[|sel|] == next;
        TokenSumCons(ranked[0], rest);
      } else {
        assert sel == ranked;
      }
    }
  }

  lemma {:induction false} TokenSumCons(x: ScoredPage, s: seq<ScoredPage>)
    ensures TokenSum([x] + s) == x.page.tokens + TokenSum(s)
    decreases |s|
  {
    if s != [] {
      assert ([x] + s)[..|s|] == [x] + s[..|s| - 1];
      TokenSumCons(x, s[..|s| - 1]);
    }
  }

  function Pages(s: seq<ScoredPage>): (r: seq<PageRecord>)
    ensures |r| == |s|
  {
    if s == [] then [] else Pages(s[..|s| - 1]) + [s[|s| - 1].page]
  }

  /** `full_text[:n]`, with Python's meaning for a negative `n`: drop that many from the end. */
  function SliceTo(s: string, n: int): (r: string)
    ensures |r| <= |s| && r == s[..|r|]
    ensures n >= 0 ==> |r| == Min(n, |s|)
    ensures n < 0 ==> |r| == Max(|s| + n, 0)
  {
    if n >= 0 then s[..Min(n, |s|)] else s[..Max(|s| + n, 0)]
  }

  /** The pages ranked for a question: scored by its keywords, highest first, ties in page order. */
  function Ranking(recs: seq<PageRecord>, question: string): seq<ScoredPage> {
    SortByScore(Scored(recs, ExtractKeywords(question)))
  }

  /** The text of the greedily chosen pages, or a prefix of the whole text when none fits. */
  function Choose(ranked: seq<ScoredPage>, fullText: string, avail: int): string {
    var sel := Selected(ranked, avail);
    if sel != [] then Render(Pages(sel)) else SliceTo(fullText, avail * 4)
  }

  /** What `get_context_for_query` returns for the given state. */
  function ContextFor(recs: seq<PageRecord>, fullText: string, totalTokens: nat,
                      question: string, maxTokens: int): string
  {
    var avail := maxTokens - 5000;
    if totalTokens <= avail then fullText else Choose(Ranking(recs, question), fullText, avail)
  }

  /**
   * Never blank when the whole text is not: a chosen selection starts with
   * the header of the best-ranked page, and otherwise the text is cut to a
   * positive length, keeping its third character when it is that long.
   */
  lemma ChooseNotBlank(ranked: seq<ScoredPage>, fullText: string, avail: int)
    requires |fullText| >= 3 && fullText[2] == '-'
    requires avail > 0
    ensures Selected(ranked, avail) != [] ==> HasPrefix(Choose(ranked, fullText, avail), Header(ranked[0].page.pageNum))
    ensures |Choose(ranked, fullText, avail)| >= 3 && Choose(ranked, fullText, avail)[2] == '-'
  {
    var sel := Selected(ranked, avail);
    if sel != [] {
      RenderStartsWithHeader(Pages(sel));
      PagesFirst(sel);
    }
  }

  lemma {:induction false} PagesFirst(s: seq<ScoredPage>)
    requires s != []
    ensures Pages(s)[0] == s[0].page
  {
    if |s| > 1 {
      PagesFirst(s[..|s| - 1]);
    }
  }

  /**
   * With a loaded document and more than 5000 tokens allowed, the context
   * is never blank: its third character is '-', as in every page header.
   * When the whole document fits it starts with the first page's header.
   */
  lemma ContextNeverBlank(recs: seq<PageRecord>, totalTokens: nat, question: string, maxTokens: int)
    requires recs != []
    requires maxTokens > 5000
    ensures var c := ContextFor(recs, Render(recs), totalTokens, question, maxTokens);
      && |c| >= 3 && c[2] == '-'
      && (totalTokens <= maxTokens - 5000 ==> HasPrefix(c, Header(recs[0].pageNum)))
  {
    var fullText := Render(recs);
    RenderStartsWithHeader(recs);
    var avail := maxTokens - 5000;
    if totalTokens > avail {
      ChooseNotBlank(Ranking(recs, question), fullText, avail);
    }
  }

  /**
   * The context need not start with a whole header: at 5001 tokens with no
   * page that fits, it is the first four characters of the text.
   */
  lemma ShortContextCutsHeader()
    ensures var recs := [PageRecord(1, "abcd", 2)];
      var c := ContextFor(recs, Render(recs), 3, "", 5001);
      |c| == 4 && HasPrefix(Render(recs), c) && !HasPrefix(c, Header(1))
  {
    var recs := [PageRecord(1, "abcd", 2)];
    var fullText := Render(recs);
    RenderOne(recs[0]);
    HeaderShape(1);
    NothingFits(recs, "", 1);
    ContextWhenNothingFits(recs, fullText, 3, "", 5001);
  }

  lemma RenderOne(rec: PageRecord)
    ensures Render([rec]) == Header(rec.pageNum) + rec.text
  {
    assert [rec][..0] == [];
  }

  /** With no page within the budget, the context is the text cut to four characters per token. */
  lemma ContextWhenNothingFits(recs: seq<PageRecord>, fullText: string, totalTokens: nat, question: string, maxTokens: int)
    requires totalTokens > maxTokens - 5000
    requires Selected(Ranking(recs, question), maxTokens - 5000) == []
    ensures ContextFor(recs, fullText, totalTokens, question, maxTokens) == SliceTo(fullText, (maxTokens - 5000) * 4)
  {
  }

  /** When every page costs more than the budget, none is chosen. */
  lemma NothingFits(recs: seq<PageRecord>, question: string, budget: int)
    requires recs != [] && forall i :: 0 <= i < |recs| ==> recs[i].tokens > budget
    ensures Selected(Ranking(recs, question), budget) == []
  {
    var scored := Scored(recs, ExtractKeywords(question));
    ScoredTooBig(recs, ExtractKeywords(question), budget);
    FrontTooBig(SortByScore(scored), scored, budget);
  }

  lemma ScoredTooBig(recs: seq<PageRecord>, keywords: seq<string>, budget: int)
    requires recs != [] && forall i :: 0 <= i < |recs| ==> recs[i].tokens > budget
    ensures var scored := Scored(recs, keywords);
      scored != [] && forall k :: 0 <= k < |scored| ==> scored[k].page.tokens > budget
  {
  }

  lemma FrontTooBig(ranked: seq<ScoredPage>, scored: seq<ScoredPage>, budget: int)
    requires multiset(ranked) == multiset(scored) && scored != []
    requires forall k :: 0 <= k < |scored| ==> scored[k].page.tokens > budget
    ensures Selected(ranked, budget) == []
  {
    assert |ranked| == |multiset(scored)| == |scored|;
    assert ranked[0] in multiset(scored);
    var k :| 0 <= k < |scored| && scored[k] == ranked[0];
  }

  /** The empty context a budget below 5000 tokens produces when no page fits. */
  lemma SmallBudgetCanBeBlank()
    ensures IsBlank(ContextFor([PageRecord(1, "abcd", 1)], Render([PageRecord(1, "abcd", 1)]), 7, "", 5000))
  {
    var recs := [PageRecord(1, "abcd", 1)];
    var ranked := Ranking(recs, "");
    assert multiset(ranked) == multiset(Scored(recs, ExtractKeywords("")));
    assert |ranked| == 1;
    assert ranked[0] in multiset(ranked);
    assert ranked[0].page.tokens == 1;
    assert Selected(ranked, 0) == [];
  }

  /** The scoring loop of `get_context_for_query`: every page with its score, in page order. */
  method ScorePages(recs: seq<PageRecord>, keywords: seq<string>) returns (scored: seq<ScoredPage>)
    ensures scored == Scored(recs, keywords)
  {
    scored := [];
    for i := 0 to |recs|
      invariant scored == Scored(recs[..i], keywords)
    {
      assert recs[..i + 1][..i] == recs[..i];
      scored := scored + [ScoredPage(ScorePage(recs[i].text, keywords), recs[i])];
    }
    assert recs[..|recs|] == recs;
  }

  /**
   * The selection loop of `get_context_for_query`: walk the ranking,
   * appending each page under its header while the running token total
   * stays within `avail`, and stop at the first page that would exceed it.
   */
  method TakeWithinBudget(ranked: seq<ScoredPage>, avail: int) returns (selectedText: string)
    ensures selectedText == Render(Pages(Selected(ranked, avail)))
    ensures selectedText == [] <==> Selected(ranked, avail) == []
  {
    selectedText := "";
    var usedTokens := 0;
    var i := 0;
    ghost var sel := Selected(ranked, avail);
    while i < |ranked|
      invariant 0 <= i <= |sel|
      invariant usedTokens == TokenSum(ranked[..i])
      invariant selectedText == Render(Pages(ranked[..i]))
    {
      var page := ranked[i].page;
      ChoiceAt(ranked, avail, i);
      if usedTokens + page.tokens > avail {
        break;
      }
      PrefixStep(ranked, i);
      selectedText := selectedText + Header(page.pageNum) + page.text;
      usedTokens := usedTokens + page.tokens;
      i := i + 1;
    }
    assert ranked[..i] == sel;
    if i > 0 {
      RenderStartsWithHeader(Pages(ranked[..i]));
    }
  }

  /**
   * The page loop of `process_pdf`: read the pages in order until one
   * raises, keeping each non-blank page under its header and reporting
   * progress on every fifth page and the last; `k` is where it stopped.
   */
  method ReadPages(pages: seq<Page>) returns (recs: seq<PageRecord>, text: string, progress: seq<nat>, k: nat)
    ensures k == ReadableCount(pages)
    ensures recs == KeptRecords(pages[..k]) && text == Render(recs)
    ensures progress == ProgressIndices(|pages|, k)
  {
    recs, text, progress := [], "", [];
    var total := |pages|;
    for i := 0 to total
      invariant i <= ReadableCount(pages)
      invariant recs == KeptRecords(pages[..i]) && text == Render(recs)
      invariant progress == ProgressIndices(total, i)
    {
      var page := pages[i];
      if page.Unreadable? {
        ReadableStop(pages, i);
        return recs, text, progress, i;
      }
      ReadablePast(pages, i);
      KeptStep(pages, i);
      if page.Text? && !IsBlank(page.text) {
        var rec := PageRecord(i + 1, page.text, CountTokens(page.text));
        RenderSnoc(recs, rec);
        recs := recs + [rec];
        text := text + Header(i + 1) + page.text;
      }
      if i % 5 == 0 || i == total - 1 {
        progress := progress + [i];
      }
    }
    k := total;
  }

  /** The PDF loader and query front end, holding the loaded document. */
  class RagSystem {
    var fullText: string
    var pageTexts: seq<PageRecord>
    var totalTokens: nat

    /** The full text is always the rendering of the kept pages, even after a failed load. */
    predicate Consistent()
      reads this
    {
      fullText == Render(pageTexts)
    }

    constructor()
      ensures fullText == "" && pageTexts == [] && totalTokens == 0
      ensures Consistent()
    {
      fullText := "";
      pageTexts := [];
      totalTokens := 0;
    }

    /**
     * `process_pdf`: the document either fails to open, or its pages are
     * read in order until one fails. Non-blank pages are kept; progress
     * is reported for every fifth page and the last; the token total is
     * updated only when every page was read.
     */
    method ProcessPdf(doc: Result<seq<Page>, string>) returns (result: Result<nat, string>, progress: seq<nat>)
      modifies this
      ensures Consistent()
      ensures doc.Err? ==>
        pageTexts == [] && progress == [] && totalTokens == old(totalTokens) && result == Err(PdfError(doc.error))
      ensures doc.Ok? ==>
        var pages, k := doc.value, ReadableCount(doc.value);
        pageTexts == KeptRecords(pages[..k]) && progress == ProgressIndices(|pages|, k) &&
        (k == |pages| ==> result == Ok(|pageTexts|) && totalTokens == CountTokens(fullText)) &&
        (k < |pages| ==> result == Err(PdfError(pages[k].error)) && totalTokens == old(totalTokens))
    {
      fullText := "";
      pageTexts := [];
      progress := [];
      if doc.Err? {
        return Err(PdfError(doc.error)), [];
      }
      var pages := doc.value;
      var k;
      pageTexts, fullText, progress, k := ReadPages(pages);
      if k < |pages| {
        return Err(PdfError(pages[k].error)), progress;
      }
      totalTokens := CountTokens(fullText);
      result := Ok(|pageTexts|);
    }

    /**
     * `get_context_for_query`: the whole text when it fits in the budget
     * `maxTokens - 5000`; otherwise the ranked pages taken greedily,
     * stopping at the first that overflows, or a prefix of the whole
     * text when none fits.
     */
    method GetContextForQuery(question: string, maxTokens: int) returns (context: string)
      ensures context == ContextFor(pageTexts, fullText, totalTokens, question, maxTokens)
    {
      var avail := maxTokens - 5000;
      if totalTokens <= avail {
        return fullText;
      }
      var keywords := ExtractKeywords(question);
      var scored := ScorePages(pageTexts, keywords);
      var ranked := SortByScore(scored);
      var selectedText := TakeWithinBudget(ranked, avail);
      if selectedText != "" {
        context := selectedText;
      } else {
        context := SliceTo(fullText, avail * 4);
      }
    }

    /**
     * The guards of `query`: no document gives a fixed message, a blank
     * context gives the fallback marker, and otherwise the language
     * model's reply (or its error, prefixed) is returned.
     */
    method Query(question: string, answer: Result<string, string>) returns (reply: string)
      ensures fullText == "" ==> reply == NoPdfMessage
      ensures fullText != "" && IsBlank(ContextFor(pageTexts, fullText, totalTokens, question, 25000)) ==>
        reply == AskFallback
      ensures fullText != "" && !IsBlank(ContextFor(pageTexts, fullText, totalTokens, question, 25000)) ==>
        reply == (if answer.Ok? then answer.value else "API Hatas\U{131}: " + answer.error)
      ensures reply == QueryReply(pageTexts, fullText, totalTokens, question, answer)
    {
      if fullText == "" {
        return NoPdfMessage;
      }
      var context := GetContextForQuery(question, 25000);
      if Strip(context) == "" {
        return AskFallback;
      }
      if answer.Ok? {
        reply := answer.value;
      } else {
        reply := "API Hatas\U{131}: " + answer.error;
      }
    }
  }

  /** The reply `query` gives in a state, as a function of the language model's answer. */
  function QueryReply(recs: seq<PageRecord>, fullText: string, totalTokens: nat,
                      question: string, answer: Result<string, string>): string {
    if fullText == "" then NoPdfMessage
    else if IsBlank(ContextFor(recs, fullText, totalTokens, question, 25000)) then AskFallback
    else if answer.Ok? then answer.value
    else "API Hatas\U{131}: " + answer.error
  }

  /** A consistent, loaded system never answers with the fallback marker. */
  lemma LoadedNeverFallsBack(recs: seq<PageRecord>, fullText: string, totalTokens: nat, question: string)
    requires fullText == Render(recs) && fullText != ""
    ensures !IsBlank(ContextFor(recs, fullText, totalTokens, question, 25000))
  {
    ContextNeverBlank(recs, totalTokens, question, 25000);
    DashNotBlank(ContextFor(recs, fullText, totalTokens, question, 25000));
  }

  lemma DashNotBlank(c: string)
    requires |c| >= 3 && c[2] == '-'
    ensures !IsBlank(c)
  {
    NotBlank(c, 2);
  }

  /** Every page of the choice still fits: the running total up to and including it is within budget. */
  lemma FitsWhileChosen(ranked: seq<ScoredPage>, budget: int, i: nat)
    requires i < |Selected(ranked, budget)|
    ensures TokenSum(ranked[..i]) + ranked[i].page.tokens <= budget
  {
    var sel := Selected(ranked, budget);
    TokenSumPrefix(sel, i + 1, |sel|);
    assert sel[..i + 1] == ranked[..i + 1];
    assert sel[..|sel|] == sel;
    PrefixStep(ranked, i);
  }

  /** The page after the choice, if any, does not fit. */
  lemma OverflowsAfterChoice(ranked: seq<ScoredPage>, budget: int)
    ensures var n := |Selected(ranked, budget)|;
      n == |ranked| || TokenSum(ranked[..n]) + ranked[n].page.tokens > budget
  {
    SelectedMaximal(ranked, budget);
  }

  /** Within the choice, a page is taken exactly when it still fits after those before it. */
  lemma ChoiceAt(ranked: seq<ScoredPage>, budget: int, i: nat)
    requires i <= |Selected(ranked, budget)| && i < |ranked|
    ensures i < |Selected(ranked, budget)| <==> TokenSum(ranked[..i]) + ranked[i].page.tokens <= budget
  {
    if i < |Selected(ranked, budget)| {
      FitsWhileChosen(ranked, budget, i);
    } else {
      OverflowsAfterChoice(ranked, budget);
    }
  }

  /** Running totals only grow along a sequence of pages. */
  lemma {:induction false} TokenSumPrefix(s: seq<ScoredPage>, j: nat, k: nat)
    requires j <= k <= |s|
    ensures TokenSum(s[..j]) <= TokenSum(s[..k])
    decreases k - j
  {
    if j < k {
      TokenSumPrefix(s, j, k - 1);
      assert s[..k][..k - 1] == s[..k - 1];
    }
  }

  /** Extending the taken prefix by one page extends its text and its token total. */
  lemma PrefixStep(ranked: seq<ScoredPage>, i: nat)
    requires i < |ranked|
    ensures Render(Pages(ranked[..i + 1])) == Render(Pages(ranked[..i])) + Header(ranked[i].page.pageNum) + ranked[i].page.text
    ensures TokenSum(ranked[..i + 1]) == TokenSum(ranked[..i]) + ranked[i].page.tokens
  {
    assert ranked[..i + 1][..i] == ranked[..i];
    var p := Pages(ranked[..i + 1]);
    assert p == Pages(ranked[..i]) + [ranked[i].page];
    assert p[..|p| - 1] == Pages(ranked[..i]);
  }
}
