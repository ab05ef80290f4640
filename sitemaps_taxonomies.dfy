/** The taxonomy sitemap provider (`GC_Sitemaps_Taxonomies`): the term
    query a sitemap page runs, the URL list built from its terms, and the
    number of sitemap pages. The filters, the term store and the link
    builder are inputs. */
module SitemapsTaxonomies {
  import opened Wrappers
  import opened Php

  /** The `GC_Term_Query` arguments the provider builds; `offset` is unset
      until a page is requested. */
  datatype TermQuery = TermQuery(
    fields: string,
    taxonomy: string,
    orderby: string,
    number: int,
    hideEmpty: bool,
    hierarchical: bool,
    updateTermMetaCache: bool,
    offset: Option<int>)

  /** `get_term_link`: a URL, or an error. */
  datatype TermLink = Link(url: string) | LinkError(code: string)

  /** A sitemap entry, `array( 'loc' => $term_link )` after the entry filter. */
  type Entry = Assoc<string>

  /** What the provider reads from the site. Terms are ids (the query asks
      for `'fields' => 'ids'`). A filter answering `null` is `None`. */
  datatype Site = Site(
    supported: set<string>,
    maxUrls: int,
    queryFilter: (TermQuery, string) -> TermQuery,
    preUrlList: (string, int) -> Option<seq<Entry>>,
    preMaxNumPages: string -> Option<int>,
    entryFilter: (Entry, int, string) -> Entry,
    termsOf: TermQuery -> seq<int>,
    countTerms: TermQuery -> nat,
    termLink: (int, string) -> TermLink)

  // ---------------------------------------------------------------------
  // get_taxonomies_query_args

  /** The unfiltered query: term ids of `taxonomy` in term order, non-empty
      terms only, flat, one sitemap page (`maxUrls`) at a time. */
  function DefaultQueryArgs(taxonomy: string, maxUrls: int): (q: TermQuery)
    ensures q.taxonomy == taxonomy && q.number == maxUrls && q.offset.None?
  {
    TermQuery("ids", taxonomy, "term_order", maxUrls, true, false, false, None)
  }

  function QueryArgs(site: Site, taxonomy: string): TermQuery {
    site.queryFilter(DefaultQueryArgs(taxonomy, site.maxUrls), taxonomy)
  }

  /** Terms shown on earlier pages: `($page_num - 1) * max_urls`. */
  function PageOffset(pageNum: int, maxUrls: int): (offset: int)
    ensures pageNum >= 1 && maxUrls >= 0 ==> offset >= 0
  {
    (pageNum - 1) * maxUrls
  }

  /** The query of page `pageNum`: the filtered arguments with the offset
      written over them. */
  function PageQuery(site: Site, taxonomy: string, pageNum: int): (q: TermQuery)
    ensures q.offset == Some(PageOffset(pageNum, site.maxUrls))
  {
    QueryArgs(site, taxonomy).(offset := Some(PageOffset(pageNum, site.maxUrls)))
  }

  /** With the query filter leaving the arguments alone, page `p` asks for
      `maxUrls` terms starting at `(p - 1) * maxUrls`, and term position `j`
      falls in the window of exactly one page, page `j / maxUrls + 1`. */
  lemma PageWindows(site: Site, taxonomy: string, j: nat, p: int)
    requires site.maxUrls > 0
    requires site.queryFilter(DefaultQueryArgs(taxonomy, site.maxUrls), taxonomy) == DefaultQueryArgs(taxonomy, site.maxUrls)
    ensures PageQuery(site, taxonomy, p).number == site.maxUrls
    ensures PageQuery(site, taxonomy, p).taxonomy == taxonomy
    ensures PageOffset(p, site.maxUrls) + site.maxUrls == PageOffset(p + 1, site.maxUrls)
    ensures PageOffset(p, site.maxUrls) <= j < PageOffset(p, site.maxUrls) + site.maxUrls <==> p == j / site.maxUrls + 1
  {
    var m := site.maxUrls;
    var q := j / m;
    assert q * m <= j < q * m + m;
    if p <= q {
      assert (p - 1) * m + m == p * m <= q * m;
    } else if p >= q + 2 {
      assert (p - 1) * m >= (q + 1) * m;
    }
  }

  // ---------------------------------------------------------------------
  // get_url_list

  /** The entries of the page's terms: one per term whose link is not an
      error, in query order, each passed through the entry filter. */
  function Entries(terms: seq<int>, taxonomy: string, site: Site): seq<Entry>
    decreases |terms|
  {
    if terms == [] then []
    else
      var rest := Entries(terms[1..], taxonomy, site);
      match site.termLink(terms[0], taxonomy)
      case LinkError(_) => rest
      case Link(url) => [site.entryFilter([("loc", url)], terms[0], taxonomy)] + rest
  }

  /** The terms whose link is not an error. */
  function Linked(site: Site, taxonomy: string): int -> bool {
    (t: int) => site.termLink(t, taxonomy).Link?
  }

  /** The URL list has exactly one entry per linked term, in order, and
      entry `i` is the filtered `loc` entry of the `i`-th linked term. */
  lemma {:induction false} EntriesOfLinkedTerms(terms: seq<int>, taxonomy: string, site: Site)
    ensures |Entries(terms, taxonomy, site)| == |Filter(terms, Linked(site, taxonomy))|
    ensures forall i :: 0 <= i < |Entries(terms, taxonomy, site)| ==>
      var t := Filter(terms, Linked(site, taxonomy))[i];
      site.termLink(t, taxonomy).Link? &&
      Entries(terms, taxonomy, site)[i] == site.entryFilter([("loc", site.termLink(t, taxonomy).url)], t, taxonomy)
    decreases |terms|
  {
    if terms != [] {
      EntriesOfLinkedTerms(terms[1..], taxonomy, site);
      var rest := Filter(terms[1..], Linked(site, taxonomy));
      if site.termLink(terms[0], taxonomy).Link? {
        assert Filter(terms, Linked(site, taxonomy)) == [terms[0]] + rest;
      } else {
        assert Filter(terms, Linked(site, taxonomy)) == rest;
      }
    }
  }

  /** The URL list of the sitemap page `pageNum` of `taxonomy`. */
  function UrlList(site: Site, pageNum: int, taxonomy: string): seq<Entry> {
    if taxonomy !in site.supported then []
    else if site.preUrlList(taxonomy, pageNum).Some? then site.preUrlList(taxonomy, pageNum).value
    else Entries(site.termsOf(PageQuery(site, taxonomy, pageNum)), taxonomy, site)
  }

  /** `get_url_list`: an unsupported taxonomy has no URLs; a pre-filter
      answer is returned as it is; otherwise the page's terms are queried
      and each linked one appended as an entry. */
  method GetUrlList(site: Site, pageNum: int, taxonomy: string) returns (urls: seq<Entry>)
    ensures taxonomy !in site.supported ==> urls == []
    ensures taxonomy in site.supported && site.preUrlList(taxonomy, pageNum).Some? ==>
      urls == site.preUrlList(taxonomy, pageNum).value
    ensures urls == UrlList(site, pageNum, taxonomy)
  {
    if taxonomy !in site.supported {
      return [];
    }
    var pre := site.preUrlList(taxonomy, pageNum);
    if pre.Some? {
      return pre.value;
    }
    var offset := (pageNum - 1) * site.maxUrls;
    var args := QueryArgs(site, taxonomy).(offset := Some(offset));
    var terms := site.termsOf(args);
    urls := [];
    var k := 0;
    while k < |terms|
      invariant 0 <= k <= |terms|
      invariant urls + Entries(terms[k..], taxonomy, site) == Entries(terms, taxonomy, site)
    {
      assert terms[k..][1..] == terms[k + 1..];
      var link := site.termLink(terms[k], taxonomy);
      if link.Link? {
        var entry := site.entryFilter([("loc", link.url)], terms[k], taxonomy);
        assert Entries(terms[k..], taxonomy, site) == [entry] + Entries(terms[k + 1..], taxonomy, site);
        urls := urls + [entry];
      } else {
        assert Entries(terms[k..], taxonomy, site) == Entries(terms[k + 1..], taxonomy, site);
      }
      k := k + 1;
    }
    assert terms[k..] == [];
    assert urls + [] == urls;
  }

  // ---------------------------------------------------------------------
  // get_max_num_pages

  /** `(int) ceil( $a / $b )` for a non-negative count and a positive page
      size: the fewest pages of `b` that hold `a`. */
  function CeilDiv(a: nat, b: nat): (n: nat)
    requires b > 0
    ensures n * b >= a && (n == 0 || (n - 1) * b < a)
  {
    (a + b - 1) / b
  }

  /** `get_max_num_pages`. The page size is positive: the site's maximum
      number of URLs per sitemap. */
  function GetMaxNumPages(site: Site, subtype: string): (n: int)
    requires site.maxUrls > 0
    ensures EmptyStr(subtype) ==> n == 0
    ensures !EmptyStr(subtype) && site.preMaxNumPages(subtype).Some? ==> n == site.preMaxNumPages(subtype).value
    ensures !EmptyStr(subtype) && site.preMaxNumPages(subtype).None? ==>
      var count := site.countTerms(QueryArgs(site, subtype));
      n >= 0 && n * site.maxUrls >= count && (n == 0 || (n - 1) * site.maxUrls < count)
  {
    if EmptyStr(subtype) then 0
    else if site.preMaxNumPages(subtype).Some? then site.preMaxNumPages(subtype).value
    else
      CeilDiv(site.countTerms(QueryArgs(site, subtype)), site.maxUrls)
  }

  /** Every counted term lies on one of the pages `get_max_num_pages`
      announces, and the last announced page is not empty. */
  lemma PagesCoverTerms(site: Site, taxonomy: string, j: nat)
    requires site.maxUrls > 0 && !EmptyStr(taxonomy) && site.preMaxNumPages(taxonomy).None?
    requires j < site.countTerms(QueryArgs(site, taxonomy))
    ensures 1 <= j / site.maxUrls + 1 <= GetMaxNumPages(site, taxonomy)
    ensures var last := GetMaxNumPages(site, taxonomy);
      PageOffset(last, site.maxUrls) < site.countTerms(QueryArgs(site, taxonomy))
  {
    var m := site.maxUrls;
    var n := GetMaxNumPages(site, taxonomy);
    var q := j / m;
    assert q * m <= j < n * m;
    MulLtCancel(q, n, m);
  }

  lemma MulLtCancel(x: int, y: int, b: int)
    requires b > 0 && x * b < y * b
    ensures x < y
  {
  }
}
