/**
 * Record extraction in `crawl_publications`: the walk over the `li.list-result-item` elements of the
 * rendered listing page that turns each one into a publication record.
 *
 * The page is given as a typed DOM: only the elements the crawler looks up are kept, already found.
 */
module Extract {
  import opened Wrappers
  import opened Text
  import opened Records
  import opened Collections

  /** The site origin that relative links are resolved against. */
  const Origin := "https://pureportal.coventry.ac.uk"
  /** The value the crawler uses for the link of a title without an anchor. */
  const NoLink := "No link available"
  /** The value the crawler uses for the date of an item without a date span. */
  const UnknownDate := "Unknown"

  /** An `<a>` element: its text and its `href` attribute, if it has one. */
  datatype Anchor = Anchor(text: string, href: Option<string>)

  /** The `<h3 class="title">` of a result item: its text and its first `<a>` descendant, if any. */
  datatype TitleTag = TitleTag(text: string, anchor: Option<Anchor>)

  /**
   * One `<li class="list-result-item">`: its first `h3.title`, its `a.link.person` anchors in document
   * order, and the text of its first `span.date`.
   */
  datatype ResultItem = ResultItem(title: Option<TitleTag>, people: seq<Anchor>, date: Option<string>)

  /** The exception that ends the crawl: `KeyError('href')`, raised by `link_tag["href"]`. */
  datatype ExtractError = KeyError(key: string)

  // ---------------------------------------------------------------- specification

  /** A link the `startswith(("http://", "https://"))` test accepts. */
  predicate IsProfileUrl(s: string) {
    StartsWith(s, "http://") || StartsWith(s, "https://")
  }

  lemma OriginPrefixed(x: string)
    ensures StartsWith(Origin + x, "https://") && StartsWith(Origin + x, "http")
  {
    assert (Origin + x)[..8] == Origin[..8];
    assert (Origin + x)[..4] == Origin[..4];
  }

  /** The title link after the `startswith("http")` test: a non-empty link that fails it gets the origin in front. */
  function TitleLinkOf(link: string): (r: string)
    ensures link == "" ==> r == ""
    ensures link != "" ==> StartsWith(r, "http")
    ensures r == link || r == Origin + link
    ensures StartsWith(link, "http") ==> r == link
  {
    if link != "" && !StartsWith(link, "http") then
      OriginPrefixed(link);
      Origin + link
    else link
  }

  /** The link of a record: the title anchor's `href`, or the placeholder when there is no anchor. */
  function TitleLink(t: TitleTag): Result<string, ExtractError> {
    match t.anchor
    case None => Success(TitleLinkOf(NoLink))
    case Some(a) =>
      match a.href
      case None => Failure(KeyError("href"))
      case Some(h) => Success(TitleLinkOf(h))
  }

  /** The author an `a.link.person` anchor contributes, if its name and its profile link are both non-blank. */
  function AuthorOf(a: Anchor): (r: Option<Author>)
    ensures r.Some? <==> Strip(a.text) != "" && Strip(a.href.GetOr("")) != ""
    ensures r.Some? ==> r.value.name == Strip(a.text) && IsProfileUrl(r.value.profileLink)
    ensures r.Some? ==> var h := Strip(a.href.GetOr("")); r.value.profileLink == h || r.value.profileLink == Origin + h
    ensures r.Some? && IsProfileUrl(Strip(a.href.GetOr(""))) ==> r.value.profileLink == Strip(a.href.GetOr(""))
    ensures r.Some? && !IsProfileUrl(Strip(a.href.GetOr(""))) ==> r.value.profileLink == Origin + Strip(a.href.GetOr(""))
  {
    var name := Strip(a.text);
    var link := Strip(a.href.GetOr(""));
    if name == "" || link == "" then None
    else if IsProfileUrl(link) then Some(Author(name, link))
    else
      OriginPrefixed(link);
      Some(Author(name, Origin + link))
  }

  /** The authors of a result item: what its anchors contribute, in document order. */
  function AuthorsOf(people: seq<Anchor>): seq<Author> {
    FilterMap(people, AuthorOf)
  }

  /** The date of a record: the stripped text of the date span, or the placeholder. */
  function DateOf(date: Option<string>): string {
    match date
    case None => UnknownDate
    case Some(d) => Strip(d)
  }

  /** The record a result item yields: none without a title tag, an error for a title anchor without `href`. */
  function RecordOf(item: ResultItem): Result<Option<Paper>, ExtractError> {
    match item.title
    case None => Success(None)
    case Some(t) =>
      match TitleLink(t)
      case Failure(e) => Failure(e)
      case Success(link) => Success(Some(Paper(Strip(t.text), link, AuthorsOf(item.people), DateOf(item.date))))
  }

  /** The records of a listing, or the first error, walking the items in document order. */
  function Extracted(items: seq<ResultItem>): Result<seq<Paper>, ExtractError> {
    Walk(items, RecordOf)
  }


  // ---------------------------------------------------------------- the loops of crawl_publications

  /** The inner loop: collect the authors of one result item. */
  method ExtractAuthors(people: seq<Anchor>) returns (authors: seq<Author>)
    ensures authors == AuthorsOf(people)
  {
    authors := [];
    for i := 0 to |people|
      invariant authors == AuthorsOf(people[..i])
    {
      assert people[..i + 1][..i] == people[..i];
      var tag := people[i];
      var name := Strip(tag.text);
      if name == "" {
        continue;
      }
      var profileLink := Strip(tag.href.GetOr(""));
      if profileLink == "" {
        continue;
      }
      if !(StartsWith(profileLink, "http://") || StartsWith(profileLink, "https://")) {
        profileLink := Origin + profileLink;
      }
      authors := authors + [Author(name, profileLink)];
    }
    assert people[..|people|] == people;
  }

  /** The outer loop: one record per result item that has a title tag, in document order. */
  method ExtractPublications(results: seq<ResultItem>) returns (r: Result<seq<Paper>, ExtractError>)
    ensures r == Extracted(results)
  {
    var papers := [];
    for i := 0 to |results|
      invariant Extracted(results[..i]) == Success(papers)
    {
      var record := ExtractRecord(results[i]);
      WalkStep(results, RecordOf, i, papers);
      if record.Failure? {
        WalkFailurePersists(results, RecordOf, i + 1);
        return Failure(record.error);
      }
      papers := papers + OptionToSeq(record.value);
    }
    assert results[..|results|] == results;
    r := Success(papers);
  }

  /** The body of the walk for one result item: its record, none without a title tag. */
  method ExtractRecord(res: ResultItem) returns (r: Result<Option<Paper>, ExtractError>)
    ensures r == RecordOf(res)
  {
    if res.title.None? {
      return Success(None);
    }
    var titleTag := res.title.value;
    var title := Strip(titleTag.text);
    var link := NoLink;
    if titleTag.anchor.Some? {
      if titleTag.anchor.value.href.None? {
        return Failure(KeyError("href"));
      }
      link := titleTag.anchor.value.href.value;
    }
    assert TitleLink(titleTag) == Success(TitleLinkOf(link));
    if link != "" && !StartsWith(link, "http") {
      link := Origin + link;
    }
    var authors := ExtractAuthors(res.people);
    var date := if res.date.Some? then Strip(res.date.value) else UnknownDate;
    return Success(Some(Paper(title, link, authors, date)));
  }

  // ---------------------------------------------------------------- properties

  function TitledItem(item: ResultItem): Option<ResultItem> {
    if item.title.Some? then Some(item) else None
  }

  /** The items the walk turns into records: those with a title tag, in document order. */
  function Titled(items: seq<ResultItem>): seq<ResultItem> {
    FilterMap(items, TitledItem)
  }

  /** Taking the titled items commutes with splitting the listing: `Titled` keeps order and drops only untitled items. */
  lemma TitledConcat(a: seq<ResultItem>, b: seq<ResultItem>)
    ensures Titled(a + b) == Titled(a) + Titled(b)
  {
    FilterMapConcat(a, b, TitledItem);
  }

  /** A title anchor without an `href` attribute: the item on which `link_tag["href"]` raises. */
  predicate LacksHref(item: ResultItem) {
    item.title.Some? && item.title.value.anchor.Some? && item.title.value.anchor.value.href.None?
  }

  /** The walk succeeds exactly when no item has a title anchor without `href`; otherwise it fails with `KeyError('href')`. */
  lemma ExtractedSucceeds(items: seq<ResultItem>)
    ensures Extracted(items).Success? <==> forall i :: 0 <= i < |items| ==> !LacksHref(items[i])
    ensures Extracted(items).Failure? ==> Extracted(items).error == KeyError("href")
  {
    forall x ensures RecordOf(x).Failure? <==> LacksHref(x) {
    }
    WalkSucceeds(items, RecordOf, KeyError("href"));
  }

  /**
   * A successful walk yields exactly one record per titled item, in document order, each the record
   * that item describes.
   */
  lemma ExtractedRecords(items: seq<ResultItem>)
    requires Extracted(items).Success?
    ensures var papers := Extracted(items).value;
      |papers| == |Titled(items)| &&
      forall k :: 0 <= k < |papers| ==> RecordOf(Titled(items)[k]) == Success(Some(papers[k]))
  {
    forall x | RecordOf(x).Success?
      ensures TitledItem(x) == if RecordOf(x).value.Some? then Some(x) else None
    {
    }
    WalkRecords(items, RecordOf, TitledItem);
  }

  /** Splitting the anchors splits the authors: `AuthorsOf` keeps order and drops only blank anchors. */
  lemma AuthorsOfConcat(a: seq<Anchor>, b: seq<Anchor>)
    ensures AuthorsOf(a + b) == AuthorsOf(a) + AuthorsOf(b)
  {
    FilterMapConcat(a, b, AuthorOf);
  }

  /** Every author kept comes from an anchor, has a non-blank, stripped name and an absolute profile link. */
  lemma AuthorsWellFormed(people: seq<Anchor>)
    ensures forall k :: 0 <= k < |AuthorsOf(people)| ==>
      var a := AuthorsOf(people)[k]; a.name != "" && IsStripped(a.name) && IsProfileUrl(a.profileLink)
  {
    forall k | 0 <= k < |AuthorsOf(people)|
      ensures var a := AuthorsOf(people)[k]; a.name != "" && IsStripped(a.name) && IsProfileUrl(a.profileLink)
    {
      FilterMapFrom(people, AuthorOf, k);
    }
  }

  /** A single anchor contributes its author when its name and profile link are non-blank, and nothing otherwise. */
  lemma AuthorsOfOne(a: Anchor)
    ensures Strip(a.text) != "" && Strip(a.href.GetOr("")) != "" ==> AuthorsOf([a]) == [AuthorOf(a).value]
    ensures Strip(a.text) == "" || Strip(a.href.GetOr("")) == "" ==> AuthorsOf([a]) == []
  {
    FilterMapSnoc([], a, AuthorOf);
    assert [] + [a] == [a];
  }

  /** Every record of a successful walk has a link that is empty or starts with "http", and absolute author links. */
  lemma ExtractedLinks(items: seq<ResultItem>)
    requires Extracted(items).Success?
    ensures forall p :: p in Extracted(items).value ==> LinksWellFormed(p)
  {
    forall x | RecordOf(x).Success? && RecordOf(x).value.Some?
      ensures LinksWellFormed(RecordOf(x).value.value)
    {
      AuthorsWellFormed(x.people);
    }
    WalkAll(items, RecordOf, LinksWellFormed);
  }

  /** The paper's link is empty or starts with "http", and every author link is an absolute profile URL. */
  predicate LinksWellFormed(p: Paper) {
    && (p.link == "" || StartsWith(p.link, "http"))
    && forall k :: 0 <= k < |p.authors| ==> IsProfileUrl(p.authors[k].profileLink)
  }

  /** A title tag without an anchor yields the placeholder with the origin in front, as the code is written. */
  lemma NoAnchorLink(t: TitleTag)
    requires t.anchor.None?
    ensures TitleLink(t) == Success("https://pureportal.coventry.ac.ukNo link available")
  {
    assert !StartsWith(NoLink, "http") by { assert NoLink[..4] != "http" by { assert NoLink[0] == 'N'; } }
    assert Origin + NoLink == "https://pureportal.coventry.ac.ukNo link available";
  }

  /** A title whose text is blank still yields a record, with an empty title. */
  lemma BlankTitleKept(item: ResultItem)
    requires item.title.Some? && AllSpace(item.title.value.text) && !LacksHref(item)
    ensures RecordOf(item).Success? && RecordOf(item).value.Some? && RecordOf(item).value.value.title == ""
  {
  }
}
