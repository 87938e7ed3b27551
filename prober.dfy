/**
 * `make_request(sku, game)`: fetch the storefront page of one SKU, decide
 * from its title whether a bundle exists, and hand a found bundle to
 * `write_data` as a one-row frame.
 *
 * The HTTP GET and the BeautifulSoup extraction are not modelled: the
 * storefront is a function from URL to `Response`, and a response holds
 * what `soup.title.string` and the `og:url` meta tag yield.
 */
module Prober {
  import opened Wrappers
  import opened Text
  import opened Locations
  import opened Store

  /** The `<meta property="og:url">` tag: absent, or present with an optional `content`. */
  datatype Meta = NoOgUrl | OgUrl(content: Option<string>)

  /**
   * The answer to the GET: the request raised (timeout, connection error),
   * or a page whose `soup.title.string` is `title` (`None` when the page has
   * no `<title>` or the tag has no single string child).
   */
  datatype Response = RequestFailed | Page(title: Option<string>, ogUrl: Meta)

  /** A found bundle, a not-found page, or an exception caught by `make_request`. */
  datatype Outcome = Found(title: string, url: string) | NotFound | Failed

  /** The title of the storefront's landing page, served for an unknown SKU. */
  const NotFoundTitle: string := "My Call of Duty® Bundles"

  /** The suffix of every bundle page's title. */
  const TitleSuffix: string := " | My Call of Duty® Bundles"

  /**
   * Lines 54-71 of `make_request`. Missing `<title>` or missing `og:url`
   * tag raise inside the `try` and end as `Failed`; a title equal to the
   * landing title is `NotFound`; any other title is `Found`, with every
   * occurrence of the suffix deleted. A tag without `content` makes `.get`
   * return `None`, which pandas writes as an empty field.
   */
  function Classify(resp: Response): (o: Outcome)
    ensures o.NotFound? <==>
      resp.Page? && resp.title == Some(NotFoundTitle) && resp.ogUrl.OgUrl?
    ensures o.Found? <==>
      resp.Page? && resp.title.Some? && resp.title.value != NotFoundTitle && resp.ogUrl.OgUrl?
    ensures o.Found? ==>
      o.title == RemoveAll(resp.title.value, TitleSuffix) && o.url == resp.ogUrl.content.GetOr("")
  {
    match resp
    case RequestFailed => Failed
    case Page(None, _) => Failed
    case Page(Some(_), NoOgUrl) => Failed
    case Page(Some(title), OgUrl(content)) =>
      if title != NotFoundTitle then Found(RemoveAll(title, TitleSuffix), content.GetOr(""))
      else NotFound
  }

  /**
   * The row `make_request` writes for `sku`, if its page shows a bundle:
   * the stripped page title, the `og:url` content and the SKU.
   */
  function ProbeRow(sku: int, game: string, storefront: string -> Response): (r: Option<Row>)
    ensures r.Some? <==> Classify(storefront(ProbeUrl(sku, game))).Found?
    ensures var o := Classify(storefront(ProbeUrl(sku, game)));
      r.Some? ==> r.value == Row(o.title, o.url, sku)
  {
    match Classify(storefront(ProbeUrl(sku, game)))
    case Found(title, url) => Some(Row(title, url, sku))
    case _ => None
  }

  /** What `make_request` returns: the display title when found, `None` otherwise. */
  function ProbeTitle(sku: int, game: string, storefront: string -> Response): (t: Option<string>)
    ensures t.Some? <==> ProbeRow(sku, game, storefront).Some?
    ensures t.Some? ==> t.value == ProbeRow(sku, game, storefront).value.title
    ensures t.Some? ==> t.value == Classify(storefront(ProbeUrl(sku, game))).title
  {
    match Classify(storefront(ProbeUrl(sku, game)))
    case Found(title, _) => Some(title)
    case _ => None
  }

  /**
   * `make_request(sku, game)`, with `writeFails` standing for an error
   * inside `write_data`. Exactly one row is written for a found bundle and
   * nothing otherwise.
   */
  method MakeRequest(disk: Disk, sku: int, game: string, storefront: string -> Response, writeFails: bool)
    returns (r: Option<string>)
    modifies disk
    ensures r == ProbeTitle(sku, game, storefront)
    ensures var row := ProbeRow(sku, game, storefront);
      var path := StorePath(game);
      if row.Some? && !writeFails
      then disk.files == old(disk.files)[path := Written(FileAt(old(disk.files), path), [row.value])]
      else disk.files == old(disk.files)
  {
    var titleList: seq<string> := [];
    var urlList: seq<string> := [];
    var skuList: seq<int> := [];
    var url := ProbeUrl(sku, game);
    var resp := storefront(url);
    match Classify(resp)
    case Found(title, bundleUrl) =>
      titleList := titleList + [title];
      urlList := urlList + [bundleUrl];
      skuList := skuList + [sku];
      disk.WriteData(titleList, urlList, skuList, game, writeFails);
      assert Zip(titleList, urlList, skuList) == [Row(title, bundleUrl, sku)];
      r := Some(title);
    case NotFound =>
      r := None;
    case Failed =>
      r := None;
  }

  /** The suffix cannot overlap itself. */
  lemma SuffixUnbordered()
    ensures Unbordered(TitleSuffix)
  {
    assert TitleSuffix[..|TitleSuffix| - 1] == " | My Call of Duty® Bundle";
    UnborderedByLastChar(TitleSuffix);
  }

  /** The landing title means "not found", whatever the `og:url` tag holds. */
  lemma LandingPageNotFound(content: Option<string>)
    ensures Classify(Page(Some(NotFoundTitle), OgUrl(content))) == NotFound
  {
  }

  /**
   * A bundle page titled `name + " | My Call of Duty® Bundles"`, where
   * `name` does not contain the suffix, is found under `name` alone.
   */
  lemma BundlePageFound(name: string, content: Option<string>)
    requires !Occurs(name, TitleSuffix)
    ensures Classify(Page(Some(name + TitleSuffix), OgUrl(content))) == Found(name, content.GetOr(""))
  {
    SuffixUnbordered();
    RemoveAllSuffix(name, TitleSuffix);
    assert name + TitleSuffix != NotFoundTitle by {
      assert |name + TitleSuffix| > |NotFoundTitle|;
    }
  }

  lemma VintageParkaTitle()
    ensures "Vintage Parka" + TitleSuffix == "Vintage Parka | My Call of Duty® Bundles"
  {
  }

  /** The example bundle "Vintage Parka". */
  lemma VintageParka(content: Option<string>)
    ensures Classify(Page(Some("Vintage Parka | My Call of Duty® Bundles"), OgUrl(content)))
      == Found("Vintage Parka", content.GetOr(""))
  {
    ShortHasNoOccurrence("Vintage Parka", TitleSuffix);
    BundlePageFound("Vintage Parka", content);
    VintageParkaTitle();
  }

  /** A title holding the suffix several times loses every occurrence. */
  lemma RepeatedSuffixFound(name: string, content: Option<string>)
    requires !Occurs(name, TitleSuffix)
    ensures Classify(Page(Some(name + TitleSuffix + TitleSuffix), OgUrl(content)))
      == Found(name, content.GetOr(""))
  {
    SuffixUnbordered();
    ShortHasNoOccurrence([], TitleSuffix);
    RemoveAllAfterClean(name, TitleSuffix, TitleSuffix);
    RemoveAllSuffix([], TitleSuffix);
    assert [] + TitleSuffix == TitleSuffix;
    assert name + TitleSuffix + TitleSuffix != NotFoundTitle by {
      assert |name + TitleSuffix + TitleSuffix| > |NotFoundTitle|;
    }
  }
}
