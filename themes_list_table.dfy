/** The installed-themes list (`GC_Themes_List_Table`): the search terms
    read from the query, the conjunctive theme search, and the page of
    themes `prepare_items` hands to the screen. The theme store, the
    translated header display and the name comparison are inputs. */
module ThemesListTable {
  import opened Php

  /** What the search reads of a theme. The four display headers are the
      translated, tag-stripped text the screen shows. */
  datatype Theme = Theme(
    stylesheet: string,
    template: string,
    tags: seq<string>,
    name: string,
    description: string,
    author: string,
    authorUri: string)

  /** Themes keyed by stylesheet, in stored order. */
  type Themes = Assoc<Theme>

  const ThemesPerPage: nat := 36

  // ---------------------------------------------------------------------
  // Search terms

  /** `array_map( 'trim', ... )` over the pieces. */
  function TrimAll(pieces: seq<string>): (r: seq<string>)
    ensures |r| == |pieces|
    ensures forall i :: 0 <= i < |pieces| ==> r[i] == Trim(pieces[i], Whitespace)
  {
    seq(|pieces|, i requires 0 <= i < |pieces| => Trim(pieces[i], Whitespace))
  }

  /** The search terms of a query `s`: lower-cased, split at commas, each
      piece trimmed, the falsy pieces ("" and "0") dropped, duplicates
      removed keeping the first. */
  function SearchTerms(s: string): seq<string> {
    Unique(Filter(TrimAll(Explode(ToLower(s), ",")), (t: string) => !EmptyStr(t)))
  }

  lemma TrimAllMembers(pieces: seq<string>)
    ensures forall t :: t in TrimAll(pieces) <==> exists p :: p in pieces && t == Trim(p, Whitespace)
  {
    var trimmed := TrimAll(pieces);
    forall t | t in trimmed
      ensures exists p :: p in pieces && t == Trim(p, Whitespace)
    {
      var i :| 0 <= i < |trimmed| && trimmed[i] == t;
      assert pieces[i] in pieces;
    }
    forall t | exists p :: p in pieces && t == Trim(p, Whitespace)
      ensures t in trimmed
    {
      var p :| p in pieces && t == Trim(p, Whitespace);
      var i :| 0 <= i < |pieces| && pieces[i] == p;
      assert trimmed[i] == t;
    }
  }

  /** A trimmed piece of the lower-cased query is lower-case, comma-free
      and trimmed. */
  lemma TrimmedPieceShape(s: string, p: string)
    requires p in Explode(ToLower(s), ",")
    ensures var t := Trim(p, Whitespace); IsLower(t) && ',' !in t && Trim(t, Whitespace) == t
  {
    ExplodePieces(ToLower(s), ",");
    TrimChars(p, Whitespace);
    TrimIdempotent(p, Whitespace);
  }

  /** What a search term is: a non-empty, lower-case, comma-free, trimmed
      piece of the query, listed once; and every such piece is a term. */
  lemma SearchTermsShape(s: string)
    ensures NoDuplicates(SearchTerms(s))
    ensures forall t :: t in SearchTerms(s) ==>
      !EmptyStr(t) && IsLower(t) && ',' !in t && Trim(t, Whitespace) == t
    ensures forall t :: t in SearchTerms(s) <==>
      !EmptyStr(t) && exists p :: p in Explode(ToLower(s), ",") && t == Trim(p, Whitespace)
  {
    var pieces := Explode(ToLower(s), ",");
    TrimAllMembers(pieces);
    forall t | t in SearchTerms(s)
      ensures IsLower(t) && ',' !in t && Trim(t, Whitespace) == t
    {
      var p :| p in pieces && t == Trim(p, Whitespace);
      TrimmedPieceShape(s, p);
    }
  }

  // ---------------------------------------------------------------------
  // search_theme

  /** A search term matches a theme exactly as a tag, or case-insensitively
      inside one of its four display headers, its stylesheet or its
      template. */
  predicate TermMatches(word: string, theme: Theme) {
    word in theme.tags
    || IndexOfIgnoreCase(theme.name, word).Some?
    || IndexOfIgnoreCase(theme.description, word).Some?
    || IndexOfIgnoreCase(theme.author, word).Some?
    || IndexOfIgnoreCase(theme.authorUri, word).Some?
    || IndexOfIgnoreCase(theme.stylesheet, word).Some?
    || IndexOfIgnoreCase(theme.template, word).Some?
  }

  /** The feature loop: false at the first requested feature that is not a
      tag. */
  function FeaturesPresent(features: seq<string>, tags: seq<string>): (b: bool)
    ensures b <==> forall w :: w in features ==> w in tags
    decreases |features|
  {
    if features == [] then true
    else if features[0] !in tags then false
    else
      assert forall w :: w in features <==> w == features[0] || w in features[1..];
      FeaturesPresent(features[1..], tags)
  }

  /** The phrase loop: false at the first term that matches nowhere. */
  function TermsMatch(terms: seq<string>, theme: Theme): (b: bool)
    ensures b <==> forall w :: w in terms ==> TermMatches(w, theme)
    decreases |terms|
  {
    if terms == [] then true
    else if !TermMatches(terms[0], theme) then false
    else
      assert forall w :: w in terms <==> w == terms[0] || w in terms[1..];
      TermsMatch(terms[1..], theme)
  }

  /** `search_theme`: every requested feature is a tag and every term
      matches; with neither, every theme is found. */
  function SearchTheme(features: seq<string>, terms: seq<string>, theme: Theme): (b: bool)
    ensures b <==> (forall w :: w in features ==> w in theme.tags) && (forall w :: w in terms ==> TermMatches(w, theme))
  {
    FeaturesPresent(features, theme.tags) && TermsMatch(terms, theme)
  }

  // ---------------------------------------------------------------------
  // prepare_items

  /** The keep test of the filtering loop. */
  function Matching(features: seq<string>, terms: seq<string>): ((string, Theme)) -> bool {
    (e: (string, Theme)) => SearchTheme(features, terms, e.1)
  }

  /** `GC_Theme::sort_by_name`, stable insertion by the name comparison
      `cmp` (negative: first name sorts first). */
  function InsertByName(x: (string, Theme), sorted: Themes, cmp: (string, string) -> int): (r: Themes)
    ensures multiset(r) == multiset(sorted) + multiset{x}
    decreases |sorted|
  {
    if sorted == [] || cmp(x.1.name, sorted[0].1.name) <= 0 then [x] + sorted
    else
      assert sorted == [sorted[0]] + sorted[1..];
      [sorted[0]] + InsertByName(x, sorted[1..], cmp)
  }

  function SortByName(themes: Themes, cmp: (string, string) -> int): (r: Themes)
    ensures multiset(r) == multiset(themes)
    decreases |themes|
  {
    if themes == [] then []
    else
      assert themes == [themes[0]] + themes[1..];
      InsertByName(themes[0], SortByName(themes[1..], cmp), cmp)
  }

  /** A comparison that orders every pair one way or the other, as the
      natural-order name comparison does. */
  ghost predicate Connex(cmp: (string, string) -> int) {
    forall a, b :: cmp(a, b) <= 0 || cmp(b, a) <= 0
  }

  /** Each theme's name sorts no later than the next one's. */
  predicate OrderedByName(themes: Themes, cmp: (string, string) -> int) {
    forall i :: 0 < i < |themes| ==> cmp(themes[i - 1].1.name, themes[i].1.name) <= 0
  }

  /** Inserting into a name-ordered list keeps it ordered; the new head is
      either the inserted theme or the old head. */
  lemma {:induction false} InsertByNameOrdered(x: (string, Theme), sorted: Themes, cmp: (string, string) -> int)
    requires Connex(cmp) && OrderedByName(sorted, cmp)
    ensures var r := InsertByName(x, sorted, cmp);
            OrderedByName(r, cmp) && (r[0] == x || (sorted != [] && r[0] == sorted[0]))
    decreases |sorted|
  {
    if sorted != [] && cmp(x.1.name, sorted[0].1.name) > 0 {
      var rest := sorted[1..];
      InsertByNameOrdered(x, rest, cmp);
      var r := InsertByName(x, sorted, cmp);
      var tail := InsertByName(x, rest, cmp);
      assert r == [sorted[0]] + tail;
      assert cmp(sorted[0].1.name, tail[0].1.name) <= 0 by {
        if tail[0] == x {
          assert cmp(x.1.name, sorted[0].1.name) <= 0 || cmp(sorted[0].1.name, x.1.name) <= 0;
        } else {
          assert tail[0] == sorted[1];
        }
      }
      forall i | 0 < i < |r|
        ensures cmp(r[i - 1].1.name, r[i].1.name) <= 0
      {
        if i > 1 {
          assert r[i - 1] == tail[i - 2] && r[i] == tail[i - 1];
        }
      }
    } else {
      var r := InsertByName(x, sorted, cmp);
      assert r == [x] + sorted;
      forall i | 0 < i < |r|
        ensures cmp(r[i - 1].1.name, r[i].1.name) <= 0
      {
        if i > 1 {
          assert r[i - 1] == sorted[i - 2] && r[i] == sorted[i - 1];
        }
      }
    }
  }

  /** The sort puts the themes in name order. */
  lemma {:induction false} SortByNameOrdered(themes: Themes, cmp: (string, string) -> int)
    requires Connex(cmp)
    ensures OrderedByName(SortByName(themes, cmp), cmp)
    decreases |themes|
  {
    if themes != [] {
      SortByNameOrdered(themes[1..], cmp);
      InsertByNameOrdered(themes[0], SortByName(themes[1..], cmp), cmp);
    }
  }

  /** The themes listed: filtered only when a term or feature is requested,
      the active theme removed, sorted by name. */
  function Listed(themes: Themes, features: seq<string>, terms: seq<string>, active: string,
                  cmp: (string, string) -> int): Themes
  {
    var found := if terms != [] || features != [] then Filter(themes, Matching(features, terms)) else themes;
    SortByName(Unset(found, active), cmp)
  }

  /** A theme is listed exactly when it is installed, is not the active one
      and, when a search is requested, is found by it. */
  lemma ListedMembers(themes: Themes, features: seq<string>, terms: seq<string>, active: string,
                      cmp: (string, string) -> int, e: (string, Theme))
    ensures e in Listed(themes, features, terms, active, cmp) <==>
      e in themes && e.0 != active && ((terms == [] && features == []) || SearchTheme(features, terms, e.1))
  {
    var found := if terms != [] || features != [] then Filter(themes, Matching(features, terms)) else themes;
    UnsetMembers(found, active);
    var r := Listed(themes, features, terms, active, cmp);
    assert e in r <==> e in multiset(r);
    assert e in Unset(found, active) <==> e in multiset(Unset(found, active));
  }

  /** `array_slice( $themes, ($page - 1) * 36, 36, true )`. */
  function PageOf(listed: Themes, page: nat): (items: Themes)
    requires page >= 1
  {
    var start := (page - 1) * ThemesPerPage;
    if start >= |listed| then []
    else if start + ThemesPerPage <= |listed| then listed[start..start + ThemesPerPage]
    else listed[start..]
  }

  /** A page holds at most 36 themes, and item `i` of page `page` is theme
      `(page - 1) * 36 + i` of the list; every listed theme is on the page
      its position names. */
  lemma PageContents(listed: Themes, page: nat)
    requires page >= 1
    ensures |PageOf(listed, page)| <= ThemesPerPage
    ensures forall i :: 0 <= i < |PageOf(listed, page)| ==>
      (page - 1) * ThemesPerPage + i < |listed| && PageOf(listed, page)[i] == listed[(page - 1) * ThemesPerPage + i]
    ensures forall j :: (page - 1) * ThemesPerPage <= j < |listed| && j < page * ThemesPerPage ==>
      j - (page - 1) * ThemesPerPage < |PageOf(listed, page)| && listed[j] == PageOf(listed, page)[j - (page - 1) * ThemesPerPage]
  {
  }

  /** `total_pages`, as the list-table base class derives it. */
  function TotalPages(totalItems: nat): (n: nat)
    ensures n * ThemesPerPage >= totalItems && (n == 0 || (n - 1) * ThemesPerPage < totalItems)
  {
    (totalItems + ThemesPerPage - 1) / ThemesPerPage
  }

  /** `tablenav` draws the pagination only when there is more than one page,
      that is, more than 36 themes. */
  function ShowsTablenav(totalPages: nat): (b: bool)
  {
    totalPages > 1
  }

  lemma TablenavNeedsSecondPage(totalItems: nat)
    ensures ShowsTablenav(TotalPages(totalItems)) <==> totalItems > ThemesPerPage
  {
    var n := TotalPages(totalItems);
    if totalItems > ThemesPerPage {
      assert n > 1;
    } else {
      assert n <= 1;
    }
  }

  /** The request parameters `prepare_items` reads. */
  datatype ThemeRequest = ThemeRequest(s: string, features: seq<string>, page: nat)

  class ThemesListTable {
    var searchTerms: seq<string>
    var features: seq<string>
    var items: Themes
    var totalItems: nat

    constructor()
      ensures searchTerms == [] && features == [] && items == [] && totalItems == 0
    {
      searchTerms := [];
      features := [];
      items := [];
      totalItems := 0;
    }

    /** `prepare_items`: the terms and features are replaced only when
        given; the page is the slice of the listed themes at the requested
        page (`page` is the list table's page number, at least 1). */
    method PrepareItems(themes: Themes, request: ThemeRequest, active: string, cmp: (string, string) -> int)
      requires request.page >= 1
      modifies this
      ensures searchTerms == if !EmptyStr(request.s) then SearchTerms(request.s) else old(searchTerms)
      ensures features == if request.features != [] then request.features else old(features)
      ensures items == PageOf(Listed(themes, features, searchTerms, active, cmp), request.page)
      ensures totalItems == |Listed(themes, features, searchTerms, active, cmp)|
    {
      if !EmptyStr(request.s) {
        searchTerms := SearchTerms(request.s);
      }
      if request.features != [] {
        features := request.features;
      }
      var listed := ListThemes(themes, features, searchTerms, active, cmp);
      items := PageOf(listed, request.page);
      totalItems := |listed|;
    }
  }

  /** The filtering, the removal of the active theme and the sort. */
  method ListThemes(themes: Themes, features: seq<string>, terms: seq<string>, active: string,
                    cmp: (string, string) -> int) returns (listed: Themes)
    ensures listed == Listed(themes, features, terms, active, cmp)
  {
    var found := themes;
    if terms != [] || features != [] {
      found := KeepMatching(themes, features, terms);
    }
    listed := SortByName(Unset(found, active), cmp);
  }

  /** The loop that unsets every theme the search does not find. */
  method KeepMatching(themes: Themes, features: seq<string>, terms: seq<string>) returns (kept: Themes)
    ensures kept == Filter(themes, Matching(features, terms))
  {
    kept := [];
    var k := 0;
    while k < |themes|
      invariant 0 <= k <= |themes|
      invariant kept + Filter(themes[k..], Matching(features, terms)) == Filter(themes, Matching(features, terms))
    {
      assert themes[k..][1..] == themes[k + 1..];
      if SearchTheme(features, terms, themes[k].1) {
        assert Filter(themes[k..], Matching(features, terms)) == [themes[k]] + Filter(themes[k + 1..], Matching(features, terms));
        kept := kept + [themes[k]];
      } else {
        assert Filter(themes[k..], Matching(features, terms)) == Filter(themes[k + 1..], Matching(features, terms));
      }
      k := k + 1;
    }
    assert themes[k..] == [];
    assert kept + [] == kept;
  }
}
