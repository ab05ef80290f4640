/** The save logic of the menu-editing screen (`gc-admin/includes/nav-menu.php`):
    which posted items `gc_save_nav_menu_items` creates, how
    `gc_nav_menu_update_menu_items` reconciles the posted rows with the stored
    menu and maintains the `auto_add` option, how
    `_gc_expand_nav_menu_post_data` turns a JSON list of form fields back into
    nested `$_POST` arrays, and the small normalisations around them. The
    database (`gc_update_nav_menu_item`, `is_nav_menu`, `is_nav_menu_item`,
    `gc_get_nav_menus`) is passed in as functions and sequences. */
module NavMenu {
  import opened Wrappers
  import opened Php

  // ---------------------------------------------------------------------
  // Request normalisations

  /** The `response-format` of the quick-search request: anything but
      "json" or "markup", an absent value included, becomes "json". */
  function ResponseFormat(requested: Option<string>): (r: string)
    ensures r == "json" || r == "markup"
    ensures requested == Some("markup") <==> r == "markup"
  {
    var f := requested.GetOr("");
    if EmptyStr(f) || (f != "json" && f != "markup") then "json" else f
  }

  /** `$_nav_menu_placeholder` after one meta box has taken a fresh
      placeholder id for a not-yet-saved item. */
  function NextPlaceholder(p: int): (r: int)
    ensures r < 0 && r < p
  {
    if 0 > p then p - 1 else -1
  }

  /** The placeholder ids handed out by `n` successive meta boxes, starting
      from the global's value `p`. */
  function Placeholders(p: int, n: nat): (r: seq<int>)
    ensures |r| == n
    decreases n
  {
    if n == 0 then [] else [NextPlaceholder(p)] + Placeholders(NextPlaceholder(p), n - 1)
  }

  /** The placeholders are negative, so they never collide with a database
      id, and strictly decreasing, so no two new items share one. */
  lemma {:induction false} PlaceholdersFresh(p: int, n: nat)
    ensures forall i :: 0 <= i < n ==> Placeholders(p, n)[i] < 0 && Placeholders(p, n)[i] < p
    ensures forall i, j :: 0 <= i < j < n ==> Placeholders(p, n)[j] < Placeholders(p, n)[i]
    decreases n
  {
    if n > 0 {
      var q := NextPlaceholder(p);
      PlaceholdersFresh(q, n - 1);
      var r := Placeholders(p, n);
      assert forall i :: 1 <= i < n ==> r[i] == Placeholders(q, n - 1)[i - 1];
    }
  }

  /** The global `$_nav_menu_placeholder`. */
  class Placeholder {
    var value: int

    constructor()
      ensures value == 0
    {
      value := 0;
    }

    /** One use of the counter by a meta box. */
    method Next() returns (id: int)
      modifies this
      ensures value == NextPlaceholder(old(value)) && id == value
    {
      value := if 0 > value then value - 1 else -1;
      id := value;
    }
  }

  /** Items per page in the post-type and taxonomy meta boxes. */
  const MetaBoxPerPage: nat := 50

  /** The page number of a meta box: the absolute value of `paged` when the
      box's tab and `paged` are both in the request, else the first page. */
  function MetaBoxPageNum(tabRequested: bool, paged: Option<int>): (n: nat)
    ensures !(tabRequested && paged.Some?) ==> n == 1
    ensures tabRequested && paged.Some? ==> n == paged.value || n == -paged.value
  {
    if tabRequested && paged.Some? then (if paged.value < 0 then -paged.value else paged.value) else 1
  }

  /** The query offset of a meta-box page: whole pages of 50 before it, and
      0 for page number 0. */
  function MetaBoxOffset(pagenum: nat): (offset: nat)
    ensures offset % MetaBoxPerPage == 0
    ensures offset / MetaBoxPerPage == if pagenum > 0 then pagenum - 1 else 0
  {
    if 0 < pagenum then MetaBoxPerPage * (pagenum - 1) else 0
  }

  /** `_gc_nav_menu_meta_box_object`: the default query attached to a post
      type or taxonomy object, when the object has a name. */
  function MetaBoxDefaultQuery(name: Option<string>): (q: Option<Assoc<string>>)
    ensures q.Some? <==> name.Some?
    ensures name.Some? && name.value != "category" ==> Get(q.value, "post_status") == Some("publish")
    ensures name == Some("category") ==>
      Get(q.value, "order") == Some("DESC") && Get(q.value, "post_status").None?
    ensures name.Some? ==> (Get(q.value, "orderby") == Some("menu_order title") <==> name.value == "page")
    ensures name == Some("page") ==> Keys(q.value) == ["orderby", "post_status"]
    ensures name == Some("category") ==> Keys(q.value) == ["orderby", "order"] && Get(q.value, "orderby") == Some("id")
    ensures name.Some? && name.value != "page" && name.value != "category" ==> Keys(q.value) == ["post_status"]
  {
    if name.None? then None
    else if name.value == "page" then Some([("orderby", "menu_order title"), ("post_status", "publish")])
    else if name.value == "post" then Some([("post_status", "publish")])
    else if name.value == "category" then Some([("orderby", "id"), ("order", "DESC")])
    else Some([("post_status", "publish")])
  }

  // ---------------------------------------------------------------------
  // Loose comparison of an integer array key with a posted string

  predicate AllDigits(s: string) {
    s != [] && forall i :: 0 <= i < |s| ==> '0' <= s[i] <= '9'
  }

  /** The integer a decimal numeric string denotes, if it is one. */
  function DecimalValue(s: string): (r: Option<int>) {
    if AllDigits(s) then Some(ParseDigits(s))
    else if s != [] && s[0] == '-' && AllDigits(s[1..]) then Some(0 - ParseDigits(s[1..]) as int)
    else None
  }

  /** `$key == $s` for an integer key and a posted string: equal exactly when
      the string is numeric with the key's value. */
  predicate LooseEquals(key: int, s: string) {
    DecimalValue(s) == Some(key)
  }

  lemma DecimalOfNegative(digits: string)
    requires AllDigits(digits)
    ensures DecimalValue("-" + digits) == Some(0 - ParseDigits(digits) as int)
  {
    var s := "-" + digits;
    assert s[0] == '-' && s[1..] == digits;
    assert !AllDigits(s);
    assert DecimalValue(s) == Some(0 - ParseDigits(s[1..]) as int);
  }

  /** An id posted back as PHP renders it compares equal to its key. */
  lemma LooseEqualsRendering(key: int)
    ensures LooseEquals(key, IntToString(key))
  {
    if key < 0 {
      RenderedNegative(-key);
    } else {
      RenderedNatural(key);
    }
  }

  lemma RenderedNegative(n: nat)
    ensures DecimalValue("-" + NatToString(n)) == Some(-(n as int))
  {
    ParseNatToString(n);
    DecimalOfNegative(NatToString(n));
  }

  lemma RenderedNatural(n: nat)
    ensures DecimalValue(NatToString(n)) == Some(n)
  {
    var digits := NatToString(n);
    ParseNatToString(n);
    assert AllDigits(digits);
  }

  // ---------------------------------------------------------------------
  // gc_save_nav_menu_items

  /** One posted item: field name to posted value; absent fields are unset. */
  type Item = map<string, string>

  /** The result of `gc_update_nav_menu_item`: the saved id or an error. */
  datatype Saved = SavedId(id: int) | SaveError(message: string)

  /** `empty( $item[$field] )`. */
  predicate Unfilled(item: Item, field: string) {
    field !in item || EmptyStr(item[field])
  }

  /** The URLs a fresh custom-link form still holds. */
  const DefaultUrls: set<string> := {"https://", "http://", ""}

  /** The guard that skips a posted item: its checkbox is not ticked and it
      is not a new custom link with a real URL. */
  predicate Skipped(item: Item) {
    Unfilled(item, "menu-item-object-id") &&
    ( "menu-item-type" !in item
      || ("menu-item-url" in item && item["menu-item-url"] in DefaultUrls)
      || !(item["menu-item-type"] == "custom" && "menu-item-db-id" !in item)
      || !Unfilled(item, "menu-item-db-id"))
  }

  /** Which posted items get saved: every ticked item, and an unticked one
      exactly when it is a new custom link whose URL is not a default. */
  function Accepted(item: Item): (b: bool)
    ensures !Unfilled(item, "menu-item-object-id") ==> b
    ensures Unfilled(item, "menu-item-object-id") ==>
      (b <==> "menu-item-type" in item && item["menu-item-type"] == "custom"
              && "menu-item-db-id" !in item
              && !("menu-item-url" in item && item["menu-item-url"] in DefaultUrls))
  {
    !Skipped(item)
  }

  /** The database id an accepted item is saved under: its posted db-id when
      that is non-empty and equals the non-negative array key, else 0 (a new
      item). */
  function DbIdFor(key: int, item: Item): (id: int)
    ensures !Unfilled(item, "menu-item-db-id") && 0 <= key && LooseEquals(key, item["menu-item-db-id"]) ==> id == key
    ensures !(!Unfilled(item, "menu-item-db-id") && 0 <= key && LooseEquals(key, item["menu-item-db-id"])) ==> id == 0
  {
    if Unfilled(item, "menu-item-db-id") || 0 > key || !LooseEquals(key, item["menu-item-db-id"]) then 0
    else DecimalValue(item["menu-item-db-id"]).value
  }

  /** An unticked item that is saved is always saved as a new item. */
  lemma NewCustomLinkIsNew(key: int, item: Item)
    requires Unfilled(item, "menu-item-object-id") && Accepted(item)
    ensures DbIdFor(key, item) == 0
  {
  }

  /** The fields copied from a posted item into the update arguments. */
  const PostFields: seq<string> := [
    "menu-item-db-id", "menu-item-object-id", "menu-item-object", "menu-item-parent-id",
    "menu-item-position", "menu-item-type", "menu-item-title", "menu-item-url",
    "menu-item-description", "menu-item-attr-title", "menu-item-target", "menu-item-classes"
  ]

  /** `$item[$field]`, or "" when it is unset. */
  function FieldOr(item: Item, field: string): string {
    if field in item then item[field] else ""
  }

  /** The twelve-field argument array built from a posted item: every field
      of `PostFields`, in that order, with its posted value or "". */
  function ItemArgs(item: Item): (args: Assoc<string>)
    ensures |args| == |PostFields|
    ensures forall i :: 0 <= i < |PostFields| ==> args[i] == (PostFields[i], FieldOr(item, PostFields[i]))
  {
    seq(|PostFields|, i requires 0 <= i < |PostFields| => (PostFields[i], FieldOr(item, PostFields[i])))
  }

  /** One call of `gc_update_nav_menu_item`, before it is made. */
  datatype SaveRequest = SaveRequest(dbId: int, args: Assoc<string>)

  function RequestFor(entry: (int, Item)): SaveRequest {
    SaveRequest(DbIdFor(entry.0, entry.1), ItemArgs(entry.1))
  }

  /** The update calls for the posted items, in posting order. */
  function SaveRequests(data: seq<(int, Item)>): (rs: seq<SaveRequest>)
    ensures |rs| <= |data|
    decreases |data|
  {
    if data == [] then []
    else (if Skipped(data[0].1) then [] else [RequestFor(data[0])]) + SaveRequests(data[1..])
  }

  /** Saving works item by item: the requests of a concatenation are the
      requests of its parts. */
  lemma {:induction false} SaveRequestsAppend(a: seq<(int, Item)>, b: seq<(int, Item)>)
    ensures SaveRequests(a + b) == SaveRequests(a) + SaveRequests(b)
    decreases |a|
  {
    if a == [] {
      assert a + b == b;
    } else {
      assert (a + b)[1..] == a[1..] + b;
      SaveRequestsAppend(a[1..], b);
    }
  }

  /** Exactly one request per accepted item. */
  lemma {:induction false} SaveRequestsCount(data: seq<(int, Item)>)
    ensures |SaveRequests(data)| == |Filter(data, (e: (int, Item)) => Accepted(e.1))|
    decreases |data|
  {
    if data != [] {
      SaveRequestsCount(data[1..]);
    }
  }

  /** The requests made for menu `menuId`: none unless it is 0 (drafts) or
      an existing menu. */
  function MenuRequests(menuId: int, isNavMenu: int -> bool, data: seq<(int, Item)>): (rs: seq<SaveRequest>)
    ensures menuId != 0 && !isNavMenu(menuId) ==> rs == []
    ensures menuId == 0 || isNavMenu(menuId) ==> rs == SaveRequests(data)
  {
    if menuId == 0 || isNavMenu(menuId) then SaveRequests(data) else []
  }

  /** `gc_save_nav_menu_items`: one update per accepted item, in order; the
      results are collected as returned. */
  method SaveNavMenuItems(menuId: int, isNavMenu: int -> bool, data: seq<(int, Item)>,
                          update: (int, int, Assoc<string>) -> Saved)
    returns (saved: seq<Saved>)
    ensures |saved| == |MenuRequests(menuId, isNavMenu, data)|
    ensures forall i :: 0 <= i < |saved| ==>
      saved[i] == update(menuId, MenuRequests(menuId, isNavMenu, data)[i].dbId,
                         MenuRequests(menuId, isNavMenu, data)[i].args)
  {
    saved := [];
    if menuId == 0 || isNavMenu(menuId) {
      ghost var done: seq<SaveRequest> := [];
      var k := 0;
      while k < |data|
        invariant 0 <= k <= |data|
        invariant done + SaveRequests(data[k..]) == SaveRequests(data)
        invariant |saved| == |done|
        invariant forall i :: 0 <= i < |saved| ==> saved[i] == update(menuId, done[i].dbId, done[i].args)
      {
        assert data[k..][1..] == data[k + 1..];
        var key, item := data[k].0, data[k].1;
        ghost var rest := SaveRequests(data[k + 1..]);
        if !Skipped(item) {
          var dbId := DbIdFor(key, item);
          var args := ItemArgs(item);
          ghost var r := SaveRequest(dbId, args);
          assert SaveRequests(data[k..]) == [r] + rest;
          assert done + ([r] + rest) == (done + [r]) + rest;
          saved := saved + [update(menuId, dbId, args)];
          done := done + [r];
        } else {
          assert SaveRequests(data[k..]) == rest;
        }
        k := k + 1;
      }
      assert data[k..] == [];
      assert done + [] == done;
    }
  }

  // ---------------------------------------------------------------------
  // gc_nav_menu_update_menu_items

  /** The posted columns: field name to (row key to value). */
  type Columns = map<string, map<int, string>>

  /** The notices returned to the screen. */
  datatype Message = ErrorNotice(text: string) | UpdatedNotice(menuTitle: string)

  /** A row is saved only when its title is posted and not "". */
  predicate TitleGiven(columns: Columns, key: int) {
    "menu-item-title" in columns && key in columns["menu-item-title"] && columns["menu-item-title"][key] != ""
  }

  /** The fields of row `key`, its db-id column value being `dbId`. */
  function RowItem(columns: Columns, key: int, dbId: string): (item: Item)
    ensures "menu-item-db-id" in item && item["menu-item-db-id"] == dbId
    ensures forall f :: f != "menu-item-db-id" ==>
      (f in item <==> f in columns && key in columns[f]) && (f in item ==> item[f] == columns[f][key])
  {
    (map f | f in columns && key in columns[f] :: columns[f][key])["menu-item-db-id" := dbId]
  }

  /** The id a row is updated under: its key when its posted db-id equals
      the key, else 0. */
  function RowDbId(key: int, dbId: string): (id: int)
    ensures id == 0 || id == key
    ensures LooseEquals(key, dbId) ==> id == key
    ensures key != 0 && id == key ==> LooseEquals(key, dbId)
  {
    if !LooseEquals(key, dbId) then 0 else key
  }

  /** The result of saving one row into menu `selected`. */
  function RowResult(selected: int, columns: Columns, row: (int, string),
                     update: (int, int, Assoc<string>) -> Saved): Saved
  {
    update(selected, RowDbId(row.0, row.1), ItemArgs(RowItem(columns, row.0, row.1)))
  }

  /** The update results of the rows with a title, in posting order. */
  function Attempts(selected: int, columns: Columns, rows: seq<(int, string)>,
                    update: (int, int, Assoc<string>) -> Saved): (r: seq<Saved>)
    decreases |rows|
  {
    if rows == [] then []
    else (if TitleGiven(columns, rows[0].0) then [RowResult(selected, columns, rows[0], update)] else [])
         + Attempts(selected, columns, rows[1..], update)
  }

  /** Exactly one update per titled row: untitled rows are skipped. */
  lemma {:induction false} AttemptsCount(selected: int, columns: Columns, rows: seq<(int, string)>,
                                         update: (int, int, Assoc<string>) -> Saved)
    ensures |Attempts(selected, columns, rows, update)| == |Filter(rows, (row: (int, string)) => TitleGiven(columns, row.0))|
    decreases |rows|
  {
    if rows != [] {
      AttemptsCount(selected, columns, rows[1..], update);
    }
  }

  /** The error notices among the results, in order. */
  function Errors(results: seq<Saved>): seq<Message>
    decreases |results|
  {
    if results == [] then []
    else Errors(results[..|results| - 1])
         + (if results[|results| - 1].SaveError? then [ErrorNotice(results[|results| - 1].message)] else [])
  }

  lemma ErrorsSnoc(results: seq<Saved>, r: Saved)
    ensures Errors(results + [r]) == Errors(results) + if r.SaveError? then [ErrorNotice(r.message)] else []
  {
    assert (results + [r])[..|results|] == results;
  }

  /** One row of the loop: its attempt, if titled, comes next. */
  lemma AttemptsStep(selected: int, columns: Columns, rows: seq<(int, string)>, k: nat,
                     update: (int, int, Assoc<string>) -> Saved, done: seq<Saved>)
    requires k < |rows|
    ensures done + Attempts(selected, columns, rows[k..], update) ==
      (done + if TitleGiven(columns, rows[k].0) then [RowResult(selected, columns, rows[k], update)] else [])
      + Attempts(selected, columns, rows[k + 1..], update)
  {
    var t := rows[k..];
    assert t[0] == rows[k] && t[1..] == rows[k + 1..];
    var step := if TitleGiven(columns, rows[k].0) then [RowResult(selected, columns, rows[k], update)] else [];
    var rest := Attempts(selected, columns, rows[k + 1..], update);
    assert Attempts(selected, columns, t, update) == step + rest;
    assert done + (step + rest) == (done + step) + rest;
  }

  /** The ids of the successful saves. */
  function SavedIds(results: seq<Saved>): set<int> {
    set i | 0 <= i < |results| && results[i].SavedId? :: results[i].id
  }

  lemma SavedIdsSnoc(results: seq<Saved>, r: Saved)
    ensures SavedIds(results + [r]) == SavedIds(results) + if r.SavedId? then {r.id} else {}
  {
    var all := results + [r];
    forall x | x in SavedIds(all)
      ensures x in SavedIds(results) + if r.SavedId? then {r.id} else {}
    {
      var i :| 0 <= i < |all| && all[i].SavedId? && all[i].id == x;
      if i < |results| {
        assert results[i] == all[i];
      }
    }
    forall x | x in SavedIds(results)
      ensures x in SavedIds(all)
    {
      var i :| 0 <= i < |results| && results[i].SavedId? && results[i].id == x;
      assert all[i] == results[i];
    }
    if r.SavedId? {
      assert all[|results|] == r;
    }
  }

  /** The items deleted after the rows are saved: every stored item of the
      menu that no row re-saved and that is still a menu item. */
  function Leftovers(existing: seq<int>, results: seq<Saved>, isNavMenuItem: int -> bool): (d: set<int>)
    ensures forall id :: id in d <==> id in existing && id !in SavedIds(results) && isNavMenuItem(id)
  {
    set id | id in existing && id !in SavedIds(results) && isNavMenuItem(id)
  }

  /** A re-saved item is never deleted, however many rows there are. */
  lemma ResavedKept(existing: seq<int>, results: seq<Saved>, isNavMenuItem: int -> bool, i: nat)
    requires i < |results| && results[i].SavedId?
    ensures results[i].id !in Leftovers(existing, results, isNavMenuItem)
  {
  }

  /** The `auto_add` list after the update: the selected menu appended when
      auto-add was ticked and it is missing, its first occurrence removed
      otherwise, then every id that is no longer a menu dropped. */
  function NewAutoAdd(current: seq<int>, selected: int, autoAddPages: bool, menus: seq<int>): seq<int> {
    var kept :=
      if autoAddPages then (if selected in current then current else current + [selected])
      else if selected in current then RemoveAt(current, FirstIndex(current, selected))
      else current;
    Filter(kept, (id: int) => id in menus)
  }

  /** What the option promises: the selected menu is listed iff auto-add was
      ticked (and the menu exists), at most once; every listed id is a menu;
      other menus keep their setting. */
  lemma AutoAddMaintained(current: seq<int>, selected: int, autoAddPages: bool, menus: seq<int>)
    requires NoDuplicates(current)
    ensures NoDuplicates(NewAutoAdd(current, selected, autoAddPages, menus))
    ensures selected in NewAutoAdd(current, selected, autoAddPages, menus) <==> autoAddPages && selected in menus
    ensures forall id :: id in NewAutoAdd(current, selected, autoAddPages, menus) ==> id in menus
    ensures forall id :: id != selected ==>
      (id in NewAutoAdd(current, selected, autoAddPages, menus) <==> id in current && id in menus)
  {
    var kept :=
      if autoAddPages then (if selected in current then current else current + [selected])
      else if selected in current then RemoveAt(current, FirstIndex(current, selected))
      else current;
    if autoAddPages && selected !in current {
      assert forall i :: 0 <= i < |current| ==> kept[i] == current[i];
      assert kept[|current|] == selected;
    } else if !autoAddPages && selected in current {
      RemoveAtNoDuplicates(current, FirstIndex(current, selected));
    }
    assert NoDuplicates(kept);
    assert forall id :: id != selected ==> (id in kept <==> id in current);
    assert selected in kept <==> autoAddPages;
    FilterNoDuplicates(kept, (id: int) => id in menus);
  }

  /** The posted form of the menu-editing screen. */
  datatype MenuForm = MenuForm(
    rows: seq<(int, string)>,   // `menu-item-db-id`, key => posted db-id, in posting order
    columns: Columns,           // the other posted item fields
    autoAddPages: bool)         // `! empty( $_POST['auto-add-pages'] )`

  /** What the database holds and does. */
  datatype MenuStore = MenuStore(
    existing: seq<int>,                           // db ids of the menu's items
    update: (int, int, Assoc<string>) -> Saved,   // gc_update_nav_menu_item
    isNavMenuItem: int -> bool,
    autoAddOption: Option<seq<int>>,              // nav_menu_options['auto_add'], if set
    menus: seq<int>)                              // gc_get_nav_menus ids

  /** `gc_nav_menu_update_menu_items`: saves the titled rows, deletes the
      leftovers, stores `auto_add` and returns the notices. */
  method UpdateMenuItems(selected: int, title: string, form: MenuForm, store: MenuStore)
    returns (messages: seq<Message>, deleted: set<int>, autoAdd: seq<int>)
    ensures messages == Errors(Attempts(selected, form.columns, form.rows, store.update)) + [UpdatedNotice(title)]
    ensures deleted == Leftovers(store.existing, Attempts(selected, form.columns, form.rows, store.update), store.isNavMenuItem)
    ensures autoAdd == NewAutoAdd(store.autoAddOption.GetOr([]), selected, form.autoAddPages, store.menus)
  {
    var remaining;
    messages, remaining := SaveRows(selected, form.columns, form.rows, store.update, store.existing);
    deleted := set id | id in remaining && store.isNavMenuItem(id);
    autoAdd := UpdateAutoAdd(store.autoAddOption, selected, form.autoAddPages, store.menus);
    messages := messages + [UpdatedNotice(title)];
  }

  /** The row loop: each titled row is saved; a success takes its id off the
      list of stored items, a failure adds an error notice. */
  method SaveRows(selected: int, columns: Columns, rows: seq<(int, string)>,
                  update: (int, int, Assoc<string>) -> Saved, existing: seq<int>)
    returns (messages: seq<Message>, remaining: set<int>)
    ensures messages == Errors(Attempts(selected, columns, rows, update))
    ensures remaining == (set id | id in existing) - SavedIds(Attempts(selected, columns, rows, update))
  {
    messages := [];
    remaining := set id | id in existing;
    ghost var stored := remaining;
    ghost var results: seq<Saved> := [];
    var k := 0;
    while k < |rows|
      invariant 0 <= k <= |rows|
      invariant results + Attempts(selected, columns, rows[k..], update) == Attempts(selected, columns, rows, update)
      invariant messages == Errors(results)
      invariant remaining == stored - SavedIds(results)
    {
      AttemptsStep(selected, columns, rows, k, update, results);
      ghost var step := if TitleGiven(columns, rows[k].0) then [RowResult(selected, columns, rows[k], update)] else [];
      var saved := SaveRow(selected, columns, rows[k], update);
      if saved.Some? {
        var r := saved.value;
        assert step == [r];
        ErrorsSnoc(results, r);
        SavedIdsSnoc(results, r);
        if r.SaveError? {
          messages := messages + [ErrorNotice(r.message)];
        } else {
          assert stored - (SavedIds(results) + {r.id}) == remaining - {r.id};
          remaining := remaining - {r.id};
        }
        results := results + [r];
      } else {
        assert step == [];
        assert results + [] == results;
      }
      k := k + 1;
    }
    assert rows[k..] == [];
    assert results + [] == results;
  }

  /** One row: saved when it has a title. */
  method SaveRow(selected: int, columns: Columns, row: (int, string), update: (int, int, Assoc<string>) -> Saved)
    returns (saved: Option<Saved>)
    ensures saved.Some? <==> TitleGiven(columns, row.0)
    ensures saved.Some? ==> saved.value == RowResult(selected, columns, row, update)
  {
    var key, dbId := row.0, row.1;
    if !TitleGiven(columns, key) {
      return None;
    }
    var args := ItemArgs(RowItem(columns, key, dbId));
    saved := Some(update(selected, if !LooseEquals(key, dbId) then 0 else key, args));
  }

  /** The `auto_add` maintenance: an unset option starts empty. */
  method UpdateAutoAdd(option: Option<seq<int>>, selected: int, autoAddPages: bool, menus: seq<int>)
    returns (autoAdd: seq<int>)
    ensures autoAdd == NewAutoAdd(option.GetOr([]), selected, autoAddPages, menus)
  {
    autoAdd := if option.Some? then option.value else [];
    if autoAddPages {
      if selected !in autoAdd {
        autoAdd := autoAdd + [selected];
      }
    } else if selected in autoAdd {
      var key := FirstIndex(autoAdd, selected);
      autoAdd := autoAdd[..key] + autoAdd[key + 1..];
    }
    autoAdd := Filter(autoAdd, (id: int) => id in menus);
  }

  // ---------------------------------------------------------------------
  // _gc_expand_nav_menu_post_data

  /** A `$_POST` value: a string or a nested array. */
  datatype PostValue = Leaf(text: string) | Branch(children: Assoc<PostValue>)

  /** `addslashes`, which `gc_slash` applies to a string. */
  function AddSlashes(s: string): (r: string)
    ensures |r| >= |s|
    decreases |s|
  {
    if s == [] then []
    else
      (if s[0] == '\'' || s[0] == '"' || s[0] == '\\' then ['\\', s[0]]
       else if s[0] == '\0' then "\\0"
       else [s[0]])
      + AddSlashes(s[1..])
  }

  /** `stripslashes`, applied to the posted JSON before decoding. */
  function StripSlashes(s: string): string
    decreases |s|
  {
    if s == [] then []
    else if s[0] == '\\' then
      (if |s| == 1 then [] else [if s[1] == '0' then '\0' else s[1]] + StripSlashes(s[2..]))
    else [s[0]] + StripSlashes(s[1..])
  }

  /** Slashing is undone by stripping. */
  lemma {:induction false} StripAddSlashes(s: string)
    ensures StripSlashes(AddSlashes(s)) == s
    decreases |s|
  {
    if s != [] {
      var t := AddSlashes(s[1..]);
      StripAddSlashes(s[1..]);
      var e := if s[0] == '\'' || s[0] == '"' || s[0] == '\\' then ['\\', s[0]]
               else if s[0] == '\0' then "\\0" else [s[0]];
      assert AddSlashes(s) == e + t;
      if |e| == 2 {
        assert (e + t)[2..] == t;
      } else {
        assert (e + t)[1..] == t;
      }
      assert s == [s[0]] + s[1..];
    }
  }

  /** The last position of `c` in `s`. */
  function LastIndexOfChar(s: string, c: char): (r: Option<nat>)
    ensures r.Some? ==> r.value < |s| && s[r.value] == c && forall j :: r.value < j < |s| ==> s[j] != c
    ensures r.None? ==> c !in s
    decreases |s|
  {
    if s == [] then None
    else if s[|s| - 1] == c then Some(|s| - 1)
    else
      var r := LastIndexOfChar(s[..|s| - 1], c);
      assert forall j :: 0 <= j < |s| - 1 ==> s[..|s| - 1][j] == s[j];
      r
  }

  /** The array path of a form field name, as the pattern
      `([^\[]*)(\[(.+)\])?` reads it: the text before the first '[', then,
      when some later ']' on the same line encloses at least one character,
      the enclosed text split at "][". */
  function ParseInputName(name: string): (bits: seq<string>)
    ensures |bits| >= 1 && StartsWith(name, bits[0]) && '[' !in bits[0]
    ensures '[' !in name ==> bits == [name]
    ensures '[' in name ==> |bits[0]| < |name| && name[|bits[0]|] == '['
  {
    match IndexOf(name, "[")
    case None =>
      assert forall j :: 0 <= j < |name| ==> name[j..j + 1] == [name[j]] && !OccursAt(name, "[", j);
      [name]
    case Some(i) =>
      assert forall j :: 0 <= j < i ==> name[j..j + 1] == [name[j]] && !OccursAt(name, "[", j);
      assert name[i] == name[i..i + 1][0] == '[';
      var rest := name[i + 1..];
      var line := match IndexOf(rest, "\n") case None => rest case Some(n) => rest[..n];
      match LastIndexOfChar(line, ']')
      case Some(j) =>
        if j >= 1 then [name[..i]] + Explode(line[..j], "][") else [name[..i]]
      case None => [name[..i]]
  }

  /** A bracketed name `p[inner]` yields `p` followed by the pieces of
      `inner`, which join back to `inner`: "a[b][c]" becomes [a, b, c]. */
  lemma ParseBracketedName(p: string, inner: string)
    requires '[' !in p && inner != [] && '\n' !in inner
    ensures ParseInputName(p + "[" + inner + "]") == [p] + Explode(inner, "][")
    ensures Implode(ParseInputName(p + "[" + inner + "]")[1..], "][") == inner
  {
    var name := p + "[" + inner + "]";
    var rest := inner + "]";
    FirstBracket(p, rest);
    assert name == p + "[" + rest;
    assert name[|p| + 1..] == rest;
    NoNewline(rest);
    assert LastIndexOfChar(rest, ']') == Some(|inner|);
    assert rest[..|inner|] == inner;
    assert name[..|p|] == p;
    assert ParseInputName(name) == [name[..|p|]] + Explode(rest[..|inner|], "][");
    ImplodeExplode(inner, "][");
    assert ([p] + Explode(inner, "]["))[1..] == Explode(inner, "][");
  }

  lemma FirstBracket(p: string, tail: string)
    requires '[' !in p
    ensures IndexOf(p + "[" + tail, "[") == Some(|p|)
  {
    var name := p + "[" + tail;
    assert OccursAt(name, "[", |p|);
    forall j | 0 <= j < |p|
      ensures !OccursAt(name, "[", j)
    {
      assert name[j..j + 1][0] == p[j];
    }
  }

  lemma NoNewline(s: string)
    requires '\n' !in s
    ensures IndexOf(s, "\n").None?
  {
    forall j | 0 <= j < |s|
      ensures !OccursAt(s, "\n", j)
    {
      assert s[j..j + 1][0] == s[j];
    }
  }

  /** The new array built from leaf to trunk: `[b0 => [b1 => ... [bn => v]]]`. */
  function NestedData(bits: seq<string>, v: string): (d: Assoc<PostValue>)
    requires bits != []
    decreases |bits|
  {
    [(bits[0], if |bits| == 1 then Leaf(v) else Branch(NestedData(bits[1..], v)))]
  }

  /** The value at a path of keys. */
  function GetPath(a: Assoc<PostValue>, path: seq<string>): Option<PostValue>
    requires path != []
    decreases |path|
  {
    match Get(a, path[0])
    case None => None
    case Some(x) =>
      if |path| == 1 then Some(x)
      else if x.Branch? then GetPath(x.children, path[1..])
      else None
  }

  /** `array_replace_recursive` for one key: two arrays are merged, anything
      else is replaced. */
  function ReplaceValue(current: Option<PostValue>, v: PostValue): PostValue
    decreases v
  {
    if current.Some? && current.value.Branch? && v.Branch?
    then Branch(ReplaceFrom(current.value.children, v.children, 0))
    else v
  }

  /** `array_replace_recursive( $a, $b )` over the keys of `b` from `i` on. */
  function ReplaceFrom(a: Assoc<PostValue>, b: Assoc<PostValue>, i: nat): Assoc<PostValue>
    requires i <= |b|
    decreases b, |b| - i
  {
    if i == |b| then a
    else
      var p := b[i];
      assert p in b;
      assert p.1 < p;
      ReplaceFrom(Put(a, p.0, ReplaceValue(Get(a, p.0), p.1)), b, i + 1)
  }

  function ReplaceRecursive(a: Assoc<PostValue>, b: Assoc<PostValue>): Assoc<PostValue> {
    ReplaceFrom(a, b, 0)
  }

  /** Replacing with a one-key array merges that one key. */
  lemma ReplaceSingle(a: Assoc<PostValue>, k: string, x: PostValue)
    ensures ReplaceRecursive(a, [(k, x)]) == Put(a, k, ReplaceValue(Get(a, k), x))
  {
    var b := [(k, x)];
    assert ReplaceFrom(a, b, 0) == ReplaceFrom(Put(a, k, ReplaceValue(Get(a, k), x)), b, 1);
  }

  /** The nested array holds the value at its path. */
  lemma {:induction false} NestedGet(bits: seq<string>, v: string)
    requires bits != []
    ensures GetPath(NestedData(bits, v), bits) == Some(Leaf(v))
    decreases |bits|
  {
    if |bits| > 1 {
      NestedGet(bits[1..], v);
    }
  }

  /** Merging one field's nested array puts the slashed value at its path. */
  lemma {:induction false} ExpandPlacesLeaf(a: Assoc<PostValue>, bits: seq<string>, v: string)
    requires bits != []
    ensures GetPath(ReplaceRecursive(a, NestedData(bits, v)), bits) == Some(Leaf(v))
    decreases |bits|
  {
    var x := NestedData(bits, v)[0].1;
    var merged := ReplaceValue(Get(a, bits[0]), x);
    var r := ReplaceRecursive(a, NestedData(bits, v));
    ReplaceSingle(a, bits[0], x);
    assert r == Put(a, bits[0], merged);
    PutGet(a, bits[0], merged, bits[0]);
    if |bits| > 1 {
      var cur := Get(a, bits[0]);
      if cur.Some? && cur.value.Branch? {
        ExpandPlacesLeaf(cur.value.children, bits[1..], v);
      } else {
        NestedGet(bits[1..], v);
      }
    }
  }

  /** ... and leaves every other top-level key of `$_POST` as it was. */
  lemma ExpandKeepsOtherKeys(a: Assoc<PostValue>, bits: seq<string>, v: string, k: string)
    requires bits != [] && k != bits[0]
    ensures Get(ReplaceRecursive(a, NestedData(bits, v)), k) == Get(a, k)
  {
    var merged := ReplaceValue(Get(a, bits[0]), NestedData(bits, v)[0].1);
    ReplaceSingle(a, bits[0], NestedData(bits, v)[0].1);
    assert ReplaceRecursive(a, NestedData(bits, v)) == Put(a, bits[0], merged);
    PutGet(a, bits[0], merged, k);
  }

  /** One decoded form field. */
  datatype InputField = InputField(name: string, value: string)

  /** `$_POST` after the fields from `k` on are merged in, in order. */
  function ExpandFrom(post: Assoc<PostValue>, fields: seq<InputField>, k: nat): Assoc<PostValue>
    requires k <= |fields|
    decreases |fields| - k
  {
    if k == |fields| then post
    else ExpandFrom(ReplaceRecursive(post, NestedData(ParseInputName(fields[k].name), AddSlashes(fields[k].value))), fields, k + 1)
  }

  /** `_gc_expand_nav_menu_post_data`: `decoded` is the JSON-decoded
      `nav-menu-data`, `None` when it is not posted, null or falsy. */
  method ExpandNavMenuPostData(post: Assoc<PostValue>, decoded: Option<seq<InputField>>)
    returns (post': Assoc<PostValue>)
    ensures decoded.None? ==> post' == post
    ensures decoded.Some? ==> post' == ExpandFrom(post, decoded.value, 0)
  {
    post' := post;
    if decoded.Some? {
      var fields := decoded.value;
      var k := 0;
      while k < |fields|
        invariant 0 <= k <= |fields|
        invariant ExpandFrom(post', fields, k) == ExpandFrom(post, fields, 0)
      {
        var bits := ParseInputName(fields[k].name);
        var newData := BuildNewPostData(bits, AddSlashes(fields[k].value));
        post' := ReplaceRecursive(post', newData);
        k := k + 1;
      }
    }
  }

  /** The leaf-to-trunk loop building one field's nested array. */
  method BuildNewPostData(bits: seq<string>, value: string) returns (d: Assoc<PostValue>)
    requires bits != []
    ensures d == NestedData(bits, value)
  {
    d := [];
    var i := |bits|;
    while i > 0
      invariant 0 <= i <= |bits|
      invariant i == |bits| ==> d == []
      invariant i < |bits| ==> d == NestedData(bits[i..], value)
    {
      i := i - 1;
      if i == |bits| - 1 {
        d := Put(d, bits[i], Leaf(value));
      } else {
        assert bits[i..][1..] == bits[i + 1..];
        d := [(bits[i], Branch(d))];
      }
    }
  }
}
