# Publication crawler and search index, modelled in Dafny

This project models the core of a small information-retrieval system. The system crawls one
publication listing page of the Coventry University research portal. It extracts a record
`{title, link, authors, date}` from each listed item and rebuilds a full-text index from those
records. It then answers free-text queries against that index. The whole core is in `crawler.py`:

- **Record extraction** (`crawl_publications`, after the page has been rendered). The walk over the
  `li.list-result-item` elements is modelled over a typed DOM. Each item has an optional title tag
  (its text and an optional anchor with an optional `href`), its `a.link.person` anchors and an
  optional date span. The walk is imperative (`Extract.ExtractPublications`, `Extract.ExtractAuthors`).
  Each loop is proved equal to a specification function (`Extract.Extracted`, `Extract.AuthorsOf`),
  and the lemmas state what those functions promise.
- **Index store** (`create_index`). The index directory is a class, `Index.IndexStore`. Its methods
  follow the source step by step: create the directory if missing, replace the old index with an
  empty one (`create_in`), add one document per paper, commit once. The authors are stored as the
  JSON text `json.dumps` writes. `Json` models that text exactly: `ensure_ascii` escapes, lower-case
  `\uXXXX`, surrogate pairs, and the `", "` / `": "` separators. It also has a decoder and the round trip.
- **Search** (`search_papers`). This is a pure function of the index generation on disk, the search
  engine and the query text. A blank query runs `Every("title")`. Any other query ORs the query parsed
  for `title` with the query parsed for `authors`. Hits are ranked by score, ties in index order, and
  capped at 20. Each hit's authors are decoded, and any failure yields `[]`.

The search engine (the whoosh library) is the `Index.Engine` value. It has three abstract parts: the
matching relation between a document and the query as parsed with a given default field (the query may
name other fields, such as `date:2021`), whether analysis of a text yields any term, and the relevance
score. Browser fetching is an input: the rendered page's result items, or `None` when the wait for the
results container timed out.

The model follows the code as written, including these behaviours:

- A title tag whose text strips to `""` is kept, giving a record with an empty title. The check is on
  the tag, not on its text.
- An item whose title tag has no anchor gets the link `"https://pureportal.coventry.ac.ukNo link available"`.
  The placeholder fails the `startswith("http")` test, so the origin is put in front of it.
- An anchor with an empty `href` gives the link `""`. An anchor with no `href` attribute raises
  `KeyError`, which ends the crawl before the index is touched.
- The title link is tested with `startswith("http")`; author links are tested with
  `startswith(("http://", "https://"))`. So a stored link is `""` or starts with `"http"`, which is
  weaker than "absolute".
- A blank query matches only documents whose title field holds at least one indexed term. The reason
  is that `Every("title")` collects the documents of the field's terms. It does not list every
  document. With titles that all hold a term, it lists the first 20 documents in index order
  (`Index.ListAllAfterCreate`).
- A search failure is the empty list, the same as "no match". The model keeps that collapse.

## Model

| member | source | states |
|---|---|---|
| `Json.EncodeAuthors` | crawler.py:36 | `json.dumps` of an author list: `[]`, or the authors as `{"name": …, "profile_link": …}` objects separated by `", "`, strings escaped as with `ensure_ascii` |
| `Json.DecodeAuthors` | crawler.py:72 | `json.loads` of a stored authors text: the author list, or `None` where it raises |
| `Text.Strip` | crawler.py:118 | `str.strip()` returns a string with no whitespace at either end; it is empty exactly when the input is all whitespace |
| `Text.StripInfix` | crawler.py:128 | stripping `left + core + right` with whitespace margins and a stripped `core` gives `core`, so `Strip` is the unique stripped infix |
| `Text.StripIdempotent` | crawler.py:131 | stripping an already stripped name or link changes nothing |
| `Json.AuthorsRoundTrip` | crawler.py:72 | `json.loads(json.dumps(authors)) == authors` for every author list, escapes and surrogate pairs included |
| `Json.StringRoundTrip` | crawler.py:37 | every string literal `json.dumps` writes is read back as the same string, leaving what follows untouched |
| `Json.AuthorsAscii` | crawler.py:37 | the stored authors text is printable ASCII, whatever the names and links hold |
| `Extract.TitleLinkOf` | crawler.py:121-122 | an empty link stays empty; a link starting with "http" is kept; any other link gets the site origin in front and then starts with "http" |
| `Extract.TitleLink` | crawler.py:119-122 | the title link: `KeyError('href')` for an anchor without `href`, otherwise the href, or the placeholder when there is no anchor, normalised by `TitleLinkOf` |
| `Extract.DateOf` | crawler.py:139-140 | the stripped text of the date span, or "Unknown" when there is none |
| `Extract.RecordOf` | crawler.py:116-148 | the record of one result item: none without a title tag, the `KeyError` of its title link, or the stripped title, link, authors and date |
| `Extract.Extracted` | crawler.py:112-150 | the records of the items in document order, or the first item's error |
| `Extract.NoAnchorLink` | crawler.py:120-122 | a title tag without an anchor yields the placeholder with the origin in front |
| `Extract.AuthorOf` | crawler.py:128-137 | an anchor yields an author exactly when its stripped name and stripped href are both non-empty; the name is the stripped text and the profile link is the stripped href, with the origin in front unless it starts with http:// or https:// |
| `Extract.AuthorsOf` | crawler.py:124-137 | the authors of a result item: the author of each `a.link.person` anchor that gives one, in document order |
| `Extract.AuthorsWellFormed` | crawler.py:129-135 | every kept author has a non-empty, stripped name and a profile link starting with http:// or https:// |
| `Extract.AuthorsOfConcat` | crawler.py:127 | the authors of a split anchor list are the authors of the parts, in order |
| `Extract.AuthorsOfOne` | crawler.py:128-137 | one anchor contributes its author when name and link are non-blank, nothing otherwise |
| `Extract.ExtractAuthors` | crawler.py:124-137 | the author loop returns exactly `AuthorsOf(people)` |
| `Extract.ExtractPublications` | crawler.py:112-150 | the result-item loop returns exactly `Extracted(results)`, stopping with `KeyError('href')` at the first title anchor without href |
| `Extract.ExtractRecord` | crawler.py:116-148 | the loop body for one item returns exactly `RecordOf(item)`: no record without a title tag, `KeyError('href')` for a title anchor without href, otherwise the stripped title, the normalised link, the item's authors and its stripped date or "Unknown" |
| `Collections.WalkFailurePersists` | crawler.py:115-120 | once the walk has raised on a prefix of the listing, it raises the same error on the whole listing |
| `Collections.WalkRecords` | crawler.py:115-148 | a successful walk yields one value per item that produces one, in order, each the value that item produces |
| `Extract.TitledConcat` | crawler.py:113-117 | the titled items of a split listing are the titled items of the parts, in order |
| `Extract.ExtractedSucceeds` | crawler.py:119-120 | the walk succeeds exactly when no titled item has an anchor without href, and otherwise fails with `KeyError('href')` |
| `Extract.ExtractedRecords` | crawler.py:115-148 | a successful walk yields one record per item with a title tag, in document order, each the record that item describes |
| `Extract.ExtractedLinks` | crawler.py:119-137 | every extracted link is empty or starts with "http", and every author profile link starts with http:// or https:// |
| `Extract.BlankTitleKept` | crawler.py:117-118 | an item whose title text is blank still yields a record, with title `""` |
| `Ranking.Rank` | crawler.py:66 | the order of `searcher.search`: each document inserted into the ranking of the ones after it, before the first with a score not larger than its own |
| `Ranking.InsertSorted` | crawler.py:66 | inserting one hit into a ranking sorted by descending score keeps it sorted |
| `Ranking.RankSorted` | crawler.py:66 | hits are ranked by descending score, and the ranking is a permutation of the matching documents |
| `Ranking.RankStable` | crawler.py:66 | among documents of equal score the ranking keeps index order |
| `Ranking.RankConstant` | crawler.py:64-66 | when every score is the same, as for `Every`, the ranking is index order |
| `Index.DocsOf` | crawler.py:35-43 | the documents the loop writes: one per paper, in order |
| `Index.DocOf` | crawler.py:36-43 | the document stored for a paper: its title, link and date, and the `json.dumps` text of its authors |
| `Index.DocRoundTrip` | crawler.py:36-43 | the stored document of a paper has the paper's title, link and date, and its authors text decodes back to the paper's authors and is printable ASCII |
| `Index.IndexStore.Generation` | crawler.py:50 | what `open_dir` opens: the committed documents, or nothing when the directory holds no index |
| `Index.IndexStore.AddDocument` | crawler.py:38-43 | an added document is buffered after the earlier ones and is not yet visible to readers |
| `Index.IndexStore.Commit` | crawler.py:44 | the commit adds exactly the buffered documents after the committed ones, all at once, and closes the writer |
| `Index.IndexStore.CreateIndex` | crawler.py:22-44 | after `create_index(papers)` the directory exists and the index holds exactly one document per paper, in order, with nothing left of the previous index |
| `Index.IsBlank` | crawler.py:52 | `not query.strip()`: the query strips to the empty string |
| `Index.Matches` | crawler.py:52-64 | a blank query matches the documents whose title holds a term (`Every("title")`); any other query matches when the query parsed with default field `title` or with default field `authors` matches |
| `Index.Hits` | crawler.py:66 | the matching documents ranked by descending score, ties in index order, the first 20 |
| `Index.ResultOf` | crawler.py:68-73 | one hit as the list comprehension builds it: its stored title, link and date and its decoded authors, or nothing where `json.loads` raises |
| `Index.DecodeAll` | crawler.py:67-74 | the hits decode exactly when each one does, and then the results are the decoded hits, one for one, in order |
| `Index.Search` | crawler.py:48-78 | a search returns at most 20 results, and nothing when there is no index to open |
| `Index.HitsMatch` | crawler.py:52-66 | every hit is a stored document that the query matches: for a blank query one whose title holds a term, otherwise one that the query parsed with default field `title` or with default field `authors` matches |
| `Index.HitsComplete` | crawler.py:52-66 | when at most 20 documents match, every stored document the query matches is a hit |
| `Index.SearchComplete` | crawler.py:52-74 | when at most 20 documents match and every hit decodes, every matching stored document is among the results, decoded |
| `Index.SearchSound` | crawler.py:52-74 | each result is a matching stored document with its authors decoded |
| `Index.SearchBest` | crawler.py:66 | when all hits decode, the search returns `min(20, matches)` results, best score first, ties in index order |
| `Index.BlankQueryInIndexOrder` | crawler.py:63-66 | a blank query returns the first 20 documents with a title term, in index order |
| `Index.UndecodableHitEmptiesResult` | crawler.py:72-78 | a hit whose authors text `json.loads` rejects turns the whole result into `[]` |
| `Index.SearchAfterCreate` | crawler.py:37-72 | after `create_index(papers)` every hit decodes, and every result is one of the indexed papers, authors included |
| `Index.SearchFindsIndexed` | crawler.py:22-74 | after `create_index(papers)`, when at most 20 papers match, every paper whose document the query matches is returned, authors included |
| `Index.ListAllAfterCreate` | crawler.py:63-72 | after `create_index(papers)`, with every title holding a term, a blank query returns the first min(20, number of papers) papers in order |
| `Pipeline.CrawlPublications` | crawler.py:97-150 | a wait timeout yields no records; otherwise the records are exactly those the extraction walk yields, or its error |
| `Pipeline.CrawlAndIndex` | crawler.py:153-157 | a crawl that raises leaves the index untouched; otherwise the index holds exactly the crawled records and the count reported is their number |
| `Pipeline.CrawledResultLinksWellFormed` | crawler.py:119-137 | after a successful crawl and rebuild, every search result is a crawled record whose link is empty or starts with "http" and whose profile links are absolute |

## Left out

- Browser fetching (crawler.py:83-110): the headless Chrome setup, the 30-second wait, the fifteen scrolls with two-second pauses and the page source. These are I/O and timing against a live site. The rendered result items, or `None` for a timeout, are an input.
- HTML parsing and element lookup with BeautifulSoup (`find_all`, `find`, class matching, `.text`). The typed DOM holds the elements the crawler looks up and their text as already found.
- The whoosh library: query grammar, text analysis, scoring and the on-disk format. These are the abstract `Engine` (match relation, "has a term", score). Ranking by descending score with ties in index order is modelled.
- Index.IndexStore.CreateIndex: does not model the I/O failures of `os.mkdir`, `create_in` or `commit`, which propagate to the caller. Nor does it model a search that reads the directory while a rebuild overwrites it.
- Json.DecodeAuthors: reads only the layout `json.dumps` writes (no other whitespace, key order or value types). It refuses `\uXXXX` escapes of unpaired surrogates, which `json.loads` accepts but no Dafny `char` can hold. Every stored authors text comes from `json.dumps`, so the round trip is unaffected.
- Index.Search: a query the parser rejects is not modelled as a failure, because the match relation is total.
- The `print` calls (crawler.py:77, 100, 154, 157) are console output and are not modelled.
- app.py (the web route), scheduler.py (the 30-day loop) and Document_Classification.py (an unrelated classifier) are not part of this model.
