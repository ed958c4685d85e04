/**
 * The search index: `create_index`, which rebuilds the on-disk index from a list of publication
 * records, and `search_papers`, which answers a free-text query against it.
 *
 * The index directory is an `IndexStore` object. The search engine's query parser, text analysis
 * and relevance scoring are an `Engine` value, left abstract.
 */
module Index {
  import opened Wrappers
  import opened Text
  import opened Records
  import opened Json
  import opened Collections
  import opened Ranking

  /** The cap `searcher.search(..., limit=20)` puts on the number of hits. */
  const Limit := 20

  /** A stored document: the four stored fields of the index schema. */
  datatype Doc = Doc(title: string, link: string, date: string, authors: string)

  /** The document `create_index` writes for a paper: the same fields, the authors as JSON text. */
  function DocOf(p: Paper): Doc {
    Doc(p.title, p.link, p.date, EncodeAuthors(p.authors))
  }

  function DocsOf(papers: seq<Paper>): (r: seq<Doc>)
    ensures |r| == |papers|
  {
    seq(|papers|, i requires 0 <= i < |papers| => DocOf(papers[i]))
  }

  /** The documents of one more paper are those of the papers before it, then its own. */
  lemma DocsOfSnoc(papers: seq<Paper>, i: nat)
    requires i < |papers|
    ensures DocsOf(papers[..i + 1]) == DocsOf(papers[..i]) + [DocOf(papers[i])]
  {
    var a := DocsOf(papers[..i + 1]);
    var b := DocsOf(papers[..i]) + [DocOf(papers[i])];
    assert |a| == |b|;
    forall k | 0 <= k < |a| ensures a[k] == b[k] {
      assert papers[..i + 1][k] == papers[k];
      if k < i {
        assert papers[..i][k] == papers[k];
      }
    }
  }

  // ---------------------------------------------------------------- the index directory

  class IndexStore {
    /** The index directory exists. */
    var dirExists: bool
    /** The directory holds an index, so that opening it succeeds. */
    var hasIndex: bool
    /** The committed documents, in the order they were added: what a reader sees. */
    var docs: seq<Doc>
    /** A writer is open on the index. */
    var writing: bool
    /** The documents added through the open writer and not yet committed. */
    var pending: seq<Doc>

    ghost predicate Valid()
      reads this
    {
      && (hasIndex ==> dirExists)
      && (!hasIndex ==> docs == [])
      && (writing ==> hasIndex)
      && (!writing ==> pending == [])
    }

    /** The index a reader opens: `None` when there is none to open. */
    function Generation(): Option<seq<Doc>>
      reads this
    {
      if hasIndex then Some(docs) else None
    }

    /** The index directory as a run of the crawler finds it: possibly absent, possibly holding an older index. */
    constructor (dirExists: bool, previous: Option<seq<Doc>>)
      requires previous.Some? ==> dirExists
      ensures Valid() && !writing
      ensures this.dirExists == dirExists && Generation() == previous
    {
      this.dirExists := dirExists;
      hasIndex := previous.Some?;
      docs := previous.GetOr([]);
      writing := false;
      pending := [];
    }

    /** `writer.add_document(...)`: buffered in the writer, not yet visible to readers. */
    method AddDocument(d: Doc)
      requires Valid() && writing
      modifies this`pending
      ensures Valid()
      ensures pending == old(pending) + [d]
    {
      pending := pending + [d];
    }

    /**
     * `writer.commit()`: the buffered documents are added after the committed ones, all at once, and
     * the writer closes.
     */
    method Commit()
      requires Valid() && writing
      modifies this`docs, this`pending, this`writing
      ensures Valid() && !writing
      ensures docs == old(docs) + old(pending) && pending == []
    {
      docs, pending, writing := docs + pending, [], false;
    }

    /**
     * `create_index(papers)`: make the directory if it is missing, replace whatever index it held by a
     * new empty one, add one document per paper in order, and commit once.
     */
    method CreateIndex(papers: seq<Paper>)
      requires Valid() && !writing
      modifies this
      ensures Valid() && !writing && dirExists
      ensures Generation() == Some(DocsOf(papers))
    {
      if !dirExists {
        dirExists := true;
      }
      // create_in: a new, empty index takes the place of the old one
      hasIndex, docs := true, [];
      // ix.writer()
      writing, pending := true, [];
      for i := 0 to |papers|
        invariant Valid() && writing && dirExists && docs == []
        invariant pending == DocsOf(papers[..i])
      {
        DocsOfSnoc(papers, i);
        AddDocument(DocOf(papers[i]));
      }
      assert papers[..|papers|] == papers;
      ghost var written := pending;
      assert docs + written == written;
      Commit();
      assert docs == written;
    }
  }

  // ---------------------------------------------------------------- searching

  /** What the search engine contributes. */
  datatype Engine = Engine(
    /**
     * `matches(field, query, d)`: the query text, as a `QueryParser` whose default field is `field`
     * reads it, matches the document `d`. The parsed query may name other fields (`date:2021`).
     */
    matches: (string, string, Doc) -> bool,
    /** Analysing this text yields at least one indexed term. */
    hasTerms: string -> bool,
    /** The relevance of a document to the query text. */
    score: (string, Doc) -> nat)

  /** `not query.strip()`. */
  predicate IsBlank(query: string) {
    Strip(query) == ""
  }

  /**
   * Whether the query `search_papers` runs matches a document: for a blank query `Every("title")`,
   * which matches the documents whose title field holds some term; otherwise the OR of the query
   * parsed for the title field and the query parsed for the authors field.
   */
  predicate Matches(e: Engine, query: string, d: Doc) {
    if IsBlank(query) then e.hasTerms(d.title)
    else e.matches("title", query, d) || e.matches("authors", query, d)
  }

  function Candidate(e: Engine, query: string): Doc -> Option<Doc> {
    d => if Matches(e, query, d) then Some(d) else None
  }

  /** The documents the query matches, in index order. */
  function Candidates(e: Engine, query: string, docs: seq<Doc>): seq<Doc> {
    FilterMap(docs, Candidate(e, query))
  }

  /** The score the search ranks by: `Every` gives every document the same weight. */
  function Relevance(e: Engine, query: string): Doc -> int {
    d => if IsBlank(query) then 1 else e.score(query, d)
  }

  function Take<T>(s: seq<T>, n: nat): (r: seq<T>)
    ensures |r| == if |s| <= n then |s| else n
    ensures r == s[..|r|]
  {
    if |s| <= n then s else s[..n]
  }

  /** `searcher.search(combined_query, limit=20)`: the best matches, best first, at most 20. */
  function Hits(e: Engine, query: string, docs: seq<Doc>): seq<Doc> {
    Take(Rank(Candidates(e, query, docs), Relevance(e, query)), Limit)
  }

  /** One hit as `search_papers` returns it, with `json.loads` applied to its authors; `None` where that raises. */
  function ResultOf(d: Doc): Option<Paper> {
    match DecodeAuthors(d.authors)
    case None => None
    case Some(authors) => Some(Paper(d.title, d.link, authors, d.date))
  }

  /** The list comprehension over the hits: all of them decoded, or `None` when one of them cannot be. */
  function DecodeAll(hits: seq<Doc>): (r: Option<seq<Paper>>)
    ensures r.Some? <==> forall k :: 0 <= k < |hits| ==> ResultOf(hits[k]).Some?
    ensures r.Some? ==> |r.value| == |hits| && forall k :: 0 <= k < |hits| ==> ResultOf(hits[k]) == Some(r.value[k])
  {
    if hits == [] then Some([])
    else
      match (ResultOf(hits[0]), DecodeAll(hits[1..]))
      case (Some(p), Some(ps)) => Some([p] + ps)
      case _ => None
  }

  /**
   * `search_papers(query)` against the index on disk, `None` when there is none. Every failure (no
   * index to open, a stored author list `json.loads` rejects) yields the empty list.
   */
  function Search(index: Option<seq<Doc>>, e: Engine, query: string): (r: seq<Paper>)
    ensures |r| <= Limit
    ensures index.None? ==> r == []
  {
    match index
    case None => []
    case Some(docs) =>
      match DecodeAll(Hits(e, query, docs))
      case None => []
      case Some(results) => results
  }

  // ---------------------------------------------------------------- properties of the search

  /** Every hit is a stored document the query matches. */
  lemma HitsMatch(e: Engine, query: string, docs: seq<Doc>)
    ensures forall k :: 0 <= k < |Hits(e, query, docs)| ==>
      Hits(e, query, docs)[k] in docs && Matches(e, query, Hits(e, query, docs)[k])
  {
    var candidates := Candidates(e, query, docs);
    var hits := Hits(e, query, docs);
    forall k | 0 <= k < |hits| ensures hits[k] in docs && Matches(e, query, hits[k]) {
      RankFrom(candidates, Relevance(e, query), k);
      CandidateIn(e, query, docs, hits[k]);
    }
  }

  /** A candidate is a stored document the query matches. */
  lemma CandidateIn(e: Engine, query: string, docs: seq<Doc>, d: Doc)
    requires d in Candidates(e, query, docs)
    ensures d in docs && Matches(e, query, d)
  {
    var k :| 0 <= k < |Candidates(e, query, docs)| && Candidates(e, query, docs)[k] == d;
    FilterMapFrom(docs, Candidate(e, query), k);
  }

  /** When at most 20 documents match, every stored document the query matches is a hit. */
  lemma HitsComplete(e: Engine, query: string, docs: seq<Doc>, d: Doc)
    requires d in docs && Matches(e, query, d) && |Candidates(e, query, docs)| <= Limit
    ensures d in Hits(e, query, docs)
  {
    var i :| 0 <= i < |docs| && docs[i] == d;
    FilterMapHas(docs, Candidate(e, query), i);
    var candidates := Candidates(e, query, docs);
    var ranked := Rank(candidates, Relevance(e, query));
    RankSorted(candidates, Relevance(e, query));
    assert d in multiset(ranked) by {
      assert d in multiset(candidates);
    }
    assert |ranked| == |candidates| by {
      assert |multiset(ranked)| == |multiset(candidates)|;
    }
  }

  /**
   * When at most 20 documents match and every hit decodes, every stored document the query matches
   * appears, decoded, among the results.
   */
  lemma SearchComplete(docs: seq<Doc>, e: Engine, query: string, d: Doc)
    requires d in docs && Matches(e, query, d) && |Candidates(e, query, docs)| <= Limit
    requires DecodeAll(Hits(e, query, docs)).Some?
    ensures ResultOf(d).Some? && ResultOf(d).value in Search(Some(docs), e, query)
  {
    HitsComplete(e, query, docs, d);
    var hits := Hits(e, query, docs);
    var k :| 0 <= k < |hits| && hits[k] == d;
    assert ResultOf(hits[k]) == Some(DecodeAll(hits).value[k]);
  }

  /**
   * Each result of a search is a stored document that the query matches (for a blank query: one with
   * a title term; otherwise one that the query parsed for the title field or for the authors field
   * matches), with its authors decoded.
   */
  lemma SearchSound(docs: seq<Doc>, e: Engine, query: string)
    ensures var results := Search(Some(docs), e, query);
      forall k :: 0 <= k < |results| ==>
        var d := Hits(e, query, docs)[k];
        d in docs && Matches(e, query, d) && ResultOf(d) == Some(results[k])
  {
    HitsMatch(e, query, docs);
  }

  /**
   * When every hit decodes, the search returns the 20 best matches (all of them if there are fewer),
   * best first, and documents of equal score in index order.
   */
  lemma SearchBest(docs: seq<Doc>, e: Engine, query: string, v: int)
    requires DecodeAll(Hits(e, query, docs)).Some?
    ensures var n := |Candidates(e, query, docs)|;
      |Search(Some(docs), e, query)| == if n <= Limit then n else Limit
    ensures SortedDesc(Hits(e, query, docs), Relevance(e, query))
    ensures var ranked := Rank(Candidates(e, query, docs), Relevance(e, query));
      FilterMap(ranked, KeyIs(Relevance(e, query), v)) == FilterMap(Candidates(e, query, docs), KeyIs(Relevance(e, query), v))
  {
    var ranked := Rank(Candidates(e, query, docs), Relevance(e, query));
    RankSorted(Candidates(e, query, docs), Relevance(e, query));
    RankStable(Candidates(e, query, docs), Relevance(e, query), v);
    assert |ranked| == |Candidates(e, query, docs)| by {
      assert |multiset(ranked)| == |multiset(Candidates(e, query, docs))|;
    }
  }

  /**
   * A blank query lists the first 20 documents whose title holds some term, in index order (for a
   * blank query, `Matches` is `hasTerms` of the title).
   */
  lemma BlankQueryInIndexOrder(docs: seq<Doc>, e: Engine, query: string)
    requires IsBlank(query)
    ensures Hits(e, query, docs) == Take(FilterMap(docs, Candidate(e, query)), Limit)
  {
    var candidates := Candidates(e, query, docs);
    RankConstant(candidates, Relevance(e, query), 1);
  }

  /** A search that fails to decode one of its hits returns nothing at all. */
  lemma UndecodableHitEmptiesResult(docs: seq<Doc>, e: Engine, query: string, k: nat)
    requires k < |Hits(e, query, docs)| && DecodeAuthors(Hits(e, query, docs)[k].authors).None?
    ensures Search(Some(docs), e, query) == []
  {
    assert ResultOf(Hits(e, query, docs)[k]).None?;
  }

  /**
   * The stored document of a paper is read back as that paper: same title, link and date, and the
   * authors text decodes to the paper's authors. The authors text is printable ASCII.
   */
  lemma {:induction false} DocRoundTrip(p: Paper)
    ensures ResultOf(DocOf(p)) == Some(p)
    ensures IsPrintableAscii(DocOf(p).authors)
  {
    AuthorsRoundTrip(p.authors);
    AuthorsAscii(p.authors);
  }

  /** A document written for one of `papers` is read back as that paper. */
  lemma DocsOfAt(papers: seq<Paper>, d: Doc)
    requires d in DocsOf(papers)
    ensures ResultOf(d).Some? && ResultOf(d).value in papers
  {
    var i :| 0 <= i < |papers| && DocsOf(papers)[i] == d;
    DocRoundTrip(papers[i]);
  }

  /**
   * After `create_index(papers)`, every search decodes all its hits and returns papers that were
   * indexed, authors included, exactly as they were given.
   */
  lemma SearchAfterCreate(papers: seq<Paper>, e: Engine, query: string)
    ensures var docs := DocsOf(papers);
      DecodeAll(Hits(e, query, docs)).Some? &&
      |Search(Some(docs), e, query)| == |Hits(e, query, docs)| &&
      forall k :: 0 <= k < |Search(Some(docs), e, query)| ==> Search(Some(docs), e, query)[k] in papers
  {
    var docs := DocsOf(papers);
    HitsMatch(e, query, docs);
    DecodeIndexed(papers, Hits(e, query, docs));
  }

  /** Documents taken from the index of `papers` all decode, each to one of `papers`. */
  lemma DecodeIndexed(papers: seq<Paper>, hits: seq<Doc>)
    requires forall k :: 0 <= k < |hits| ==> hits[k] in DocsOf(papers)
    ensures DecodeAll(hits).Some?
    ensures forall k :: 0 <= k < |hits| ==> DecodeAll(hits).value[k] in papers
  {
    EachIndexedDecodes(papers, hits);
    DecodeAllIn(hits, papers);
  }

  lemma EachIndexedDecodes(papers: seq<Paper>, hits: seq<Doc>)
    requires forall k :: 0 <= k < |hits| ==> hits[k] in DocsOf(papers)
    ensures forall k :: 0 <= k < |hits| ==> ResultOf(hits[k]).Some? && ResultOf(hits[k]).value in papers
  {
    forall k | 0 <= k < |hits| ensures ResultOf(hits[k]).Some? && ResultOf(hits[k]).value in papers {
      DocsOfAt(papers, hits[k]);
    }
  }

  lemma DecodeAllIn(hits: seq<Doc>, papers: seq<Paper>)
    requires forall k :: 0 <= k < |hits| ==> ResultOf(hits[k]).Some? && ResultOf(hits[k]).value in papers
    ensures DecodeAll(hits).Some?
    ensures forall k :: 0 <= k < |hits| ==> DecodeAll(hits).value[k] in papers
  {
  }

  /**
   * After `create_index(papers)`, when at most 20 papers match, a search returns every paper whose
   * document the query matches, authors included.
   */
  lemma SearchFindsIndexed(papers: seq<Paper>, e: Engine, query: string, k: nat)
    requires k < |papers| && Matches(e, query, DocOf(papers[k]))
    requires |Candidates(e, query, DocsOf(papers))| <= Limit
    ensures papers[k] in Search(Some(DocsOf(papers)), e, query)
  {
    var docs := DocsOf(papers);
    SearchAfterCreate(papers, e, query);
    assert docs[k] == DocOf(papers[k]);
    SearchComplete(docs, e, query, DocOf(papers[k]));
    DocRoundTrip(papers[k]);
  }

  /**
   * After `create_index(papers)`, when every title holds some term, a blank query returns the first
   * `min(20, |papers|)` papers, in order.
   */
  lemma ListAllAfterCreate(papers: seq<Paper>, e: Engine, query: string)
    requires IsBlank(query)
    requires forall i :: 0 <= i < |papers| ==> e.hasTerms(papers[i].title)
    ensures Search(Some(DocsOf(papers)), e, query) == Take(papers, Limit)
  {
    AllTitledListed(papers, e, query);
    DecodeFirst(papers);
    SearchDecodes(DocsOf(papers), e, query, Take(papers, Limit));
  }

  lemma SearchDecodes(docs: seq<Doc>, e: Engine, query: string, results: seq<Paper>)
    requires DecodeAll(Hits(e, query, docs)) == Some(results)
    ensures Search(Some(docs), e, query) == results
  {
  }

  /** The first 20 documents of the index of `papers` decode to the first 20 papers. */
  lemma DecodeFirst(papers: seq<Paper>)
    ensures DecodeAll(Take(DocsOf(papers), Limit)) == Some(Take(papers, Limit))
  {
    var hits := Take(DocsOf(papers), Limit);
    forall k | 0 <= k < |hits| ensures ResultOf(hits[k]) == Some(papers[k]) {
      DocRoundTrip(papers[k]);
    }
    DecodeTake(papers, hits);
  }

  lemma AllTitledListed(papers: seq<Paper>, e: Engine, query: string)
    requires IsBlank(query)
    requires forall i :: 0 <= i < |papers| ==> e.hasTerms(papers[i].title)
    ensures Hits(e, query, DocsOf(papers)) == Take(DocsOf(papers), Limit)
  {
    var docs := DocsOf(papers);
    BlankQueryInIndexOrder(docs, e, query);
    forall i | 0 <= i < |docs| ensures Candidate(e, query)(docs[i]) == Some(docs[i]) {
      assert docs[i].title == papers[i].title;
    }
    FilterMapKeepsAll(docs, Candidate(e, query));
  }

  lemma DecodeTake(papers: seq<Paper>, hits: seq<Doc>)
    requires |hits| == if |papers| <= Limit then |papers| else Limit
    requires forall k :: 0 <= k < |hits| ==> ResultOf(hits[k]) == Some(papers[k])
    ensures DecodeAll(hits) == Some(Take(papers, Limit))
  {
    var r := DecodeAll(hits);
    assert r.Some?;
    assert r.value == Take(papers, Limit);
  }
}
