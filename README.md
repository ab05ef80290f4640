# GeChiUI admin core: a Dafny model

This project models the decision procedures, list transformations and
serialisers inside six files of the GeChiUI content-management system. It
then proves the properties those files promise. It covers:

- **the asset loader** (`gc-includes/script-loader.php`):
  - moving `prototype` ahead of `jquery`;
  - the size-sorted, budgeted inlining of stylesheets (`gc_maybe_inline_styles`);
  - the 128-character chunking of the concatenated handle list;
  - the "set only if unset" concatenation and compression flags;
  - the script-attribute serialiser;
  - the relative-URL rewriting of inlined CSS;
  - the vendor-script registration loop and the polyfill loader;
  - the classic-block TinyMCE settings;
- **the editor settings of `_GC_Editors`** (`gc-includes/class-gc-editor.php`):
  - the per-instance TinyMCE and Quicktags decisions;
  - the height clamp;
  - the plugin and toolbar lists;
  - the JavaScript object-literal serialiser `_parse_init`;
  - the memoised TinyMCE locale and the translation table;
  - the run-once printing flags;
  - the sticky static state, modelled as a class;
- **the menu-editing screen** (`gc-admin/includes/nav-menu.php`):
  - the accept/skip rule and db-id resolution of `gc_save_nav_menu_items`;
  - the save-then-delete reconciliation and the `auto_add` option of `gc_nav_menu_update_menu_items`;
  - the `name[a][b]` expansion of `_gc_expand_nav_menu_post_data`;
  - the placeholder counter, meta-box paging and default queries;
- **the installed-themes list** (`gc-admin/includes/class-gc-themes-list-table.php`):
  - search-term tokenising;
  - the conjunctive `search_theme`;
  - `prepare_items` with its page slice;
  - the `tablenav` guard;
- **block types** (`gc-includes/class-gc-block-type.php`):
  - property assignment in `set_props`;
  - `is_dynamic`, `get_attributes` and `render`;
  - the validate-then-default attribute preparation;
- **the taxonomy sitemap provider** (`gc-includes/sitemaps/providers/class-gc-sitemaps-taxonomies.php`):
  - the term query with its page offset;
  - the error-skipping URL list;
  - the page count.

The hook system, the database, the file system and the escaping/URL helpers
are parameters of the model:
- a filter is a function argument;
- a store or query is a function or a sequence;
- a file is reached through functions from path to contents or size.

PHP's ordered string-keyed arrays are sequences of key/value pairs (`Php.Assoc`) with
`Get`, `Put`, `Unset`, `Merge` and `Filter`. The PHP built-ins the core calls
(`empty`, `trim`, `strtolower`, `explode`/`implode`, `array_unique`,
`stripos`, `str_replace`) are defined once in `php.dfy`.

Where the code keeps state between calls, the model uses classes whose methods state their whole new state:
- the static fields of `_GC_Editors`;
- the style registry;
- the themes list table;
- the block type object;
- the placeholder counter.

Loops in the source that build a result or update state are loops in the
model. Each is proved against a recursive specification function, and the
lemmas beside it state what the source promises. The loops that only test a
condition or select entries are recursive functions: the three `foreach`
loops of `search_theme` (`ThemesListTable.FeaturesPresent`,
`ThemesListTable.TermsMatch`) and the external-plugin loop of
`editor_settings` (`Editor.ExternalPlugins`).

`_parse_init` and its copy in `gc_tinymce_inline_scripts` are both the method
`TinymceInit.ParseInit`, which is proved to compute `TinymceInit.InitObject`.

Source paths below are relative to the repository root.

## Model

| member | source | states |
|---|---|---|
| ScriptLoader.PrototypeBeforeJquery | code/gechiui/gc-includes/script-loader.php:1693-1716 | With prototype or jquery absent, or prototype already first, the list comes back unchanged. Otherwise the result has the same length and the same handles (multiset); prototype sits immediately before jquery; removing it leaves the input with its prototype removed, so every other handle keeps its relative order. Prototype precedes jquery in every result. |
| ScriptLoader.MovePrototypeMultiset | code/gechiui/gc-includes/script-loader.php:1710-1714 | The unset-then-splice move keeps the length and the multiset of handles. Taking prototype out again gives the input with prototype removed. |
| ScriptLoader.MovePrototypeOrder | code/gechiui/gc-includes/script-loader.php:1710-1714 | After the move, the first prototype is at jquery's old index and the first jquery directly follows it. |
| ScriptLoader.Chunks | code/gechiui/gc-includes/script-loader.php:2024 | `str_split` into 128-character pieces: at least one chunk, each non-empty and at most 128 characters long. |
| ScriptLoader.ChunksConcat | code/gechiui/gc-includes/script-loader.php:2024 | The chunks concatenate back to the trimmed handle string. |
| ScriptLoader.ChunksFull | code/gechiui/gc-includes/script-loader.php:2024 | Every chunk except the last is exactly 128 characters. |
| ScriptLoader.LoadChunkParams | code/gechiui/gc-includes/script-loader.php:2027-2029 | The loop emits `&load%5Bchunk_k%5D=` followed by chunk k, for k = 0, 1, 2, … in order. |
| ScriptLoader.ZipParam | code/gechiui/gc-includes/script-loader.php:2007-2010 | The zip argument is "0" exactly when compression is off, "gzip" exactly when it is on and gzip is enforced, and "1" when it is on without gzip enforced. |
| ScriptLoader.TrimmedConcat | code/gechiui/gc-includes/script-loader.php:2012 | A handle list that survives trimming ", " is non-empty and neither starts nor ends with a comma or space. |
| ScriptLoader.ScriptsLoadSrc | code/gechiui/gc-includes/script-loader.php:2004-2035 | No concatenated script tag when the trimmed list is empty. Otherwise the load-scripts.php source carries the zip flag, the chunk parameters of the trimmed list and the version. |
| ScriptLoader.StylesLoadHref | code/gechiui/gc-includes/script-loader.php:2181-2218 | The same for load-styles.php, with the text direction added. |
| ScriptLoader.InitialConcatenate | code/gechiui/gc-includes/script-loader.php:2236-2241 | A freshly computed `$concatenate_scripts` is false under SCRIPT_DEBUG and false on requests that are neither admin nor login. Otherwise it is the CONCATENATE_SCRIPTS constant, or true when that is undefined. |
| ScriptLoader.InitialCompress | code/gechiui/gc-includes/script-loader.php:2232-2255 | A freshly computed compress flag is false when compression is unavailable or the output is already compressed. Otherwise it is the constant, or true when that is undefined. |
| ScriptLoader.ConcatSettings.Determine | code/gechiui/gc-includes/script-loader.php:2229-2256 | A global that is already set is never overwritten. An unset one gets its computed value, so all three are set afterwards. |
| ScriptLoader.SanitizeScriptAttributes | code/gechiui/gc-includes/script-loader.php:2586-2603 | The loop produces the attribute string entry by entry, in input order. |
| ScriptLoader.AttributesAppend | code/gechiui/gc-includes/script-loader.php:2592-2600 | Serialising works attribute by attribute: the string of a concatenation is the concatenation of the strings. |
| ScriptLoader.FalseAttributeOmitted | code/gechiui/gc-includes/script-loader.php:2593-2596 | An attribute whose value is boolean false contributes nothing, wherever it appears. |
| ScriptLoader.NormalizeRelativeCssLinks | code/gechiui/gc-includes/script-loader.php:2788-2824 | The rewriting loop is the match-by-match application of the skip rules and the root-relative replacement. |
| ScriptLoader.KeptUrlsLeaveCss | code/gechiui/gc-includes/script-loader.php:2794-2806 | CSS whose URLs are all absolute (`http…`, `//`), fragments or data URIs comes out unchanged. |
| ScriptLoader.StyleLoaderSrc | code/gechiui/gc-includes/script-loader.php:1886-1918 | The source is false exactly for the 'colors' stylesheet outside installation. During installation a leading `gc-admin/` becomes `./`. Every other source is kept as it is. |
| ScriptLoader.RegisterVendorScripts | code/gechiui/gc-includes/script-loader.php:121-131 | One registration per table entry, in order. Each gets its handle, its dependencies (none for a bare handle), the vendor path with the suffix, and its version from the version table. |
| ScriptLoader.VendorTableComplete | code/gechiui/gc-includes/script-loader.php:89-119 | Every vendor handle has a version, and every dependency named in the table is itself a vendor handle. |
| ScriptLoader.GetScriptPolyfill | code/gechiui/gc-includes/script-loader.php:175-215 | The loop output is the per-test loader lines joined in test order. |
| ScriptLoader.PolyfillScript | code/gechiui/gc-includes/script-loader.php:178-211 | One test gives nothing for an unregistered handle or for a source filtered to a falsy value. Otherwise it gives the `document.write` loader line for the filtered source. |
| ScriptLoader.UnregisteredPolyfillsSkipped | code/gechiui/gc-includes/script-loader.php:178-180 | Tests whose handles are not registered produce an empty polyfill. |
| ScriptLoader.ClassicBlockBaseKeys | code/gechiui/gc-includes/script-loader.php:502-514 | The classic-block defaults have exactly the keys plugins, toolbar1–4, external_plugins and classic_block_editor, in that order. The caption key follows only when captions are disabled. |
| ScriptLoader.ClassicBlockBaseSettings | code/gechiui/gc-includes/script-loader.php:448-514 | The defaults mark the classic block and list each plugin once (array_unique). The caption flag is present iff captions are disabled. |
| ScriptLoader.CaptionFlagSet | code/gechiui/gc-includes/script-loader.php:512-514 | With captions disabled, the flag is true. |
| ScriptLoader.CaptionFlagUnset | code/gechiui/gc-includes/script-loader.php:512-514 | With captions enabled, the flag is absent. |
| ScriptLoader.ClassicBlockDropsEditorSettings | code/gechiui/gc-includes/script-loader.php:516-518 | As written, a `height` of 300 among the editor's TinyMCE settings is missing from the classic-block settings. The corrected settings hold it. |
| ScriptLoader.ClassicBlockHonoursEditorSettings | code/gechiui/gc-includes/script-loader.php:516-518 | Corrected: every key of the editor's TinyMCE settings takes the editor's value, and every other key keeps its default. |
| ScriptLoader.ClassicBlockInitObject | code/gechiui/gc-includes/script-loader.php:516-541 | As written: the 'tiny_mce_before_init' filter receives the defaults without the editor's TinyMCE settings, and the copied serialiser loop produces `InitObject` of the filtered defaults, whatever the editor settings hold. |
| ScriptLoader.ClassicBlockInitObjectIntended | code/gechiui/gc-includes/script-loader.php:516-541 | Corrected: the filter and the loop see the editor's TinyMCE settings merged over the defaults, and the output is `InitObject` of the filtered merge. Without editor settings it is the same object as written. |
| StyleInliner.Candidates | code/gechiui/gc-includes/script-loader.php:2718-2730 | Each candidate is a queued handle whose registered path names an existing file. There are no more candidates than queued handles. |
| StyleInliner.CandidatesComplete | code/gechiui/gc-includes/script-loader.php:2718-2730 | Every queued handle with an existing file is a candidate. |
| StyleInliner.InsertBySize | code/gechiui/gc-includes/script-loader.php:2734-2739 | Insertion adds exactly the one candidate (multiset). |
| StyleInliner.InsertSorted | code/gechiui/gc-includes/script-loader.php:2734-2739 | Insertion into a size-sorted list keeps it sorted. |
| StyleInliner.SortBySize | code/gechiui/gc-includes/script-loader.php:2734-2739 | The sort is a permutation of the candidates. |
| StyleInliner.SortBySizeSorted | code/gechiui/gc-includes/script-loader.php:2734-2739 | The sorted candidates are in nondecreasing size order. |
| StyleInliner.InlineOne | code/gechiui/gc-includes/script-loader.php:2765-2769 | Inlining one stylesheet keeps the set of registered handles. |
| StyleInliner.InlineFrom | code/gechiui/gc-includes/script-loader.php:2747-2773 | The loop over the sorted candidates neither adds nor removes a registered handle. |
| StyleInliner.InlinedCount | code/gechiui/gc-includes/script-loader.php:2747-2755 | The loop inlines at most all the candidates. |
| StyleInliner.InlinedStyles | code/gechiui/gc-includes/script-loader.php:2706-2775 | `gc_maybe_inline_styles` keeps the set of registered handles. |
| StyleInliner.SortedAllRegistered | code/gechiui/gc-includes/script-loader.php:2718-2739 | Every sorted candidate is a registered stylesheet. |
| StyleInliner.InlineBudget | code/gechiui/gc-includes/script-loader.php:2747-2773 | The inlined candidates are a prefix of the size-sorted list whose total fits the limit. When the loop stops early, adding the next candidate would exceed the limit. |
| StyleInliner.InlineAllWhenSmall | code/gechiui/gc-includes/script-loader.php:2747-2773 | When all candidates together fit the limit, all are inlined. |
| StyleInliner.InlinedLoseSrc | code/gechiui/gc-includes/script-loader.php:2765-2766 | Every inlined stylesheet ends with no `src`. |
| StyleInliner.InlineKeepsSrcNone | code/gechiui/gc-includes/script-loader.php:2765-2766 | A stylesheet without `src` keeps none. |
| StyleInliner.NotInlinedUntouched | code/gechiui/gc-includes/script-loader.php:2747-2773 | A stylesheet that is not inlined is left exactly as it was. |
| StyleInliner.InlinedOncePrepends | code/gechiui/gc-includes/script-loader.php:2766-2769 | An inlined stylesheet's `after` list is its inline CSS followed by its earlier entries. |
| StyleInliner.StyleRegistry.MaybeInlineStyles | code/gechiui/gc-includes/script-loader.php:2706-2775 | The registry becomes `InlinedStyles` of the old registry and queue. The queue is unchanged. |
| StyleInliner.StyleRegistry.CollectCandidates | code/gechiui/gc-includes/script-loader.php:2718-2730 | The collecting loop returns `Candidates` of the registry and queue. |
| StyleInliner.StyleRegistry.InlineSorted | code/gechiui/gc-includes/script-loader.php:2747-2773 | The inlining loop leaves the registry as `InlineFrom` from a zero total. |
| TinymceInit.EntryText | code/gechiui/gc-includes/class-gc-editor.php:821-834 | A boolean entry is unquoted true/false. A non-empty string in braces or brackets, or starting with a function expression, is emitted raw. Anything else is double-quoted. Every entry ends with a comma. |
| TinymceInit.BodyAppend | code/gechiui/gc-includes/class-gc-editor.php:820-835 | The serialisation works entry by entry: the body of a concatenation is the concatenation of the bodies. |
| TinymceInit.TrimEntry | code/gechiui/gc-includes/class-gc-editor.php:836 | Trimming " ," removes exactly the trailing comma of an entry that neither starts nor ends with a space or comma. |
| TinymceInit.SingleBoolean | code/gechiui/gc-includes/class-gc-editor.php:817-837 | A one-entry boolean array serialises to `{key:true}` or `{key:false}`. |
| TinymceInit.SingleQuoted | code/gechiui/gc-includes/class-gc-editor.php:817-837 | A one-entry array with an ordinary string serialises to `{key:"value"}`. |
| TinymceInit.ParseInit | code/gechiui/gc-includes/class-gc-editor.php:817-837 | The loop's braced, trimmed output is `InitObject` of the settings. |
| Editor.ParseArgs | code/gechiui/gc-includes/class-gc-editor.php:82-101 | Absent arguments take the defaults: TinyMCE and Quicktags on, not teeny, no DFW, autop on unless the post has blocks, and tab focus ":prev,:next". Each supplied argument (tinymce, quicktags, teeny, DFW, autop, tab focus, height) is kept as given. |
| Editor.ClampHeight | code/gechiui/gc-includes/class-gc-editor.php:135-139 | The height is clamped into [50, 5000]. It is unchanged inside that range and moved to the nearest bound outside it. |
| Editor.SettledHeight | code/gechiui/gc-includes/class-gc-editor.php:122-139 | An empty height is returned unclamped. Any other height ends inside [50, 5000]. It is the clamped given height unless the 'ed_size' cookie replaces it for the content editor. |
| Editor.QuicktagsDefaultButtons | code/gechiui/gc-includes/class-gc-editor.php:325-340 | Without buttons of its own, an editor gets the default button list, with ',dfw' appended for the DFW content editor. |
| Editor.QuicktagsOwnButtons | code/gechiui/gc-includes/class-gc-editor.php:325-340 | Buttons an editor supplies are kept, with ',dfw' appended for the DFW content editor. |
| Editor.DefaultPlugins | code/gechiui/gc-includes/class-gc-editor.php:412-435 | 'image' is among the default plugins exactly when the media library is not in use. |
| Editor.InternalPlugins | code/gechiui/gc-includes/class-gc-editor.php:450-457 | The internal plugin list is duplicate-free and lacks 'spellchecker'. Its members are exactly the filtered plugins other than 'spellchecker'. |
| Editor.ExternalPlugins | code/gechiui/gc-includes/class-gc-editor.php:491-498 | An external plugin named like an internal one is dropped. Every other external plugin keeps its URL with the scheme set. |
| Editor.FullEditorPlugins | code/gechiui/gc-includes/class-gc-editor.php:364-539 | The first full editor's plugin list is duplicate-free and lacks 'spellchecker'. No external plugin shares a name with it. |
| Editor.ToolbarShiftGet | code/gechiui/gc-includes/class-gc-editor.php:803-806 | When toolbar3 is empty and toolbar4 is not, toolbar3 takes toolbar4's value and toolbar4 becomes ''. No other key changes, and nothing changes without the shift. |
| Editor.ToolbarShiftIdempotent | code/gechiui/gc-includes/class-gc-editor.php:803-806 | The shift applied to its own result changes nothing. |
| Editor.MceLocaleFor | code/gechiui/gc-includes/class-gc-editor.php:1011-1018 | An empty user locale gives 'zh_CN'. Otherwise the result is the lower-cased first two characters (fewer for a shorter locale). It is never empty. |
| Editor.CollapseTranslations | code/gechiui/gc-includes/class-gc-editor.php:1446-1450 | Same keys in the same order; an array value collapses to its first element. |
| Editor.DropUntranslated | code/gechiui/gc-includes/class-gc-editor.php:1461-1471 | Each key is absent when its value equals the key. Otherwise it holds the entity-decoded value. |
| Editor.TranslationsSettled | code/gechiui/gc-includes/class-gc-editor.php:1444-1476 | In the final table `_dir` is 'rtl' for a right-to-left locale. Every other key is absent if untranslated and decoded otherwise. |
| Editor.LinkQueryOffset | code/gechiui/gc-includes/class-gc-editor.php:1743-1749 | The link-query offset is a whole number of 20-post pages: 0 without a page number or for page 0 or 1, else 20·(\|page\| − 1). |
| Editor.Editors.constructor | code/gechiui/gc-includes/class-gc-editor.php:12-31 | Every static flag starts false and every list and table starts empty. |
| Editor.Editors.ParseSettings | code/gechiui/gc-includes/class-gc-editor.php:68-142 | TinyMCE is on for this editor iff it is requested, the user can use the rich editor and the id has no '['. `has_tinymce`/`has_quicktags` only go from false to true. The returned height is settled. |
| Editor.Editors.EditorSettings | code/gechiui/gc-includes/class-gc-editor.php:310-810 | The Quicktags settings and button list are recorded only for a Quicktags editor. The shared first init and plugin list are fixed once, by the first TinyMCE editor. The TinyMCE settings are recorded per id, built on the first init. Building the first init memoises the TinyMCE locale of the user locale when none is stored yet. Nothing else changes. |
| Editor.Editors.RecordQuicktags | code/gechiui/gc-includes/class-gc-editor.php:323-355 | The filtered Quicktags settings are stored under the editor id, and their buttons are appended to the shared button list. |
| Editor.Editors.RecordTinymce | code/gechiui/gc-includes/class-gc-editor.php:357-808 | The first init and plugin list are computed only while unset. Computing them stores the TinyMCE locale (`get_mce_locale`) if none is stored yet; otherwise the stored locale is kept. The editor's TinyMCE settings are stored under its id. |
| Editor.Editors.GetMceLocale | code/gechiui/gc-includes/class-gc-editor.php:1011-1018 | The locale is computed once and then returned from the cache. It is never empty. |
| Editor.Editors.MceTranslation | code/gechiui/gc-includes/class-gc-editor.php:1439-1486 | An explicit locale is used as given. Otherwise the memoised locale is used. The table is `Translations` of the inputs. |
| Editor.Editors.PrintTinymceScripts | code/gechiui/gc-includes/class-gc-editor.php:1521-1537 | The scripts are printed on the first call only. That call memoises the TinyMCE locale of the user locale when none is stored yet; a later call, or a stored locale, leaves it unchanged. |
| Editor.Editors.LinkDialog | code/gechiui/gc-includes/class-gc-editor.php:1814-1820 | The link dialog is printed on the first call only. |
| Editor.CollapseLoop | code/gechiui/gc-includes/class-gc-editor.php:1446-1450 | The collapsing loop computes `CollapseTranslations`. |
| Editor.DropLoop | code/gechiui/gc-includes/class-gc-editor.php:1461-1471 | The unset-or-decode loop computes `DropUntranslated`. |
| NavMenu.ResponseFormat | code/gechiui/gc-admin/includes/nav-menu.php:28-32 | The format is always 'json' or 'markup', and 'markup' exactly when 'markup' was requested. |
| NavMenu.NextPlaceholder | code/gechiui/gc-admin/includes/nav-menu.php:292 | Each use yields a placeholder that is negative and below the previous value. |
| NavMenu.PlaceholdersFresh | code/gechiui/gc-admin/includes/nav-menu.php:292 | Successive placeholders are all negative and strictly decreasing, so no two coincide. |
| NavMenu.Placeholder.Next | code/gechiui/gc-admin/includes/nav-menu.php:292 | The global counter advances to the next placeholder, which is returned. |
| NavMenu.MetaBoxPageNum | code/gechiui/gc-admin/includes/nav-menu.php:345 | The page number is \|paged\| when the box's tab and `paged` are both requested, and 1 otherwise. |
| NavMenu.MetaBoxOffset | code/gechiui/gc-admin/includes/nav-menu.php:346 | The offset is a whole number of 50-item pages: those before the page, and none for page 0. |
| NavMenu.MetaBoxDefaultQuery | code/gechiui/gc-admin/includes/nav-menu.php:992-1023 | A named object gets a default query. Pages get exactly `orderby` "menu_order title" and `post_status` "publish". Categories get exactly `orderby` "id" and `order` "DESC", with no status restriction. Every other object gets exactly `post_status` "publish". |
| NavMenu.LooseEqualsRendering | code/gechiui/gc-admin/includes/nav-menu.php:953 | An id posted back as PHP renders it compares loosely equal to its array key. |
| NavMenu.Accepted | code/gechiui/gc-admin/includes/nav-menu.php:931-948 | A ticked item is always saved. An unticked one is saved exactly when it is a new custom link (type 'custom', no db-id) with a set URL other than '', 'http://' or 'https://'. |
| NavMenu.DbIdFor | code/gechiui/gc-admin/includes/nav-menu.php:950-958 | The db id is the array key when the posted db-id is non-empty, the key is non-negative and they compare equal. Otherwise it is 0. |
| NavMenu.NewCustomLinkIsNew | code/gechiui/gc-admin/includes/nav-menu.php:931-958 | An unticked item that is saved is always saved as a new item (db id 0). |
| NavMenu.ItemArgs | code/gechiui/gc-admin/includes/nav-menu.php:960-973 | The update arguments are the twelve item fields in order, each holding its posted value or ''. |
| NavMenu.SaveRequestsAppend | code/gechiui/gc-admin/includes/nav-menu.php:930-976 | Saving works item by item: the requests for a concatenation are the requests for each part. |
| NavMenu.SaveRequestsCount | code/gechiui/gc-admin/includes/nav-menu.php:930-976 | There is exactly one update request per accepted item. |
| NavMenu.MenuRequests | code/gechiui/gc-admin/includes/nav-menu.php:927 | Nothing is saved into a nonzero id that is not a menu. |
| NavMenu.SaveNavMenuItems | code/gechiui/gc-admin/includes/nav-menu.php:923-980 | The result holds one update result per accepted item, in posting order, each from that item's db id and arguments. It is empty for a nonzero id that is not a menu. |
| NavMenu.RowItem | code/gechiui/gc-admin/includes/nav-menu.php:1191-1194 | A row's fields are the posted column values at its key, with its db-id. |
| NavMenu.RowDbId | code/gechiui/gc-admin/includes/nav-menu.php:1196 | A row is updated under its key when its posted db-id equals the key, and under 0 (a new item) otherwise. |
| NavMenu.AttemptsCount | code/gechiui/gc-admin/includes/nav-menu.php:1184-1196 | There is exactly one update per row with a non-empty title. Untitled rows are skipped. |
| NavMenu.ResavedKept | code/gechiui/gc-admin/includes/nav-menu.php:1198-1213 | An item that a row saved successfully is never deleted. |
| NavMenu.Leftovers | code/gechiui/gc-admin/includes/nav-menu.php:1206-1213 | An id is deleted iff it is a stored item of the menu that no row re-saved and that is still a menu item. |
| NavMenu.AutoAddMaintained | code/gechiui/gc-admin/includes/nav-menu.php:1216-1235 | The result has no duplicates. The selected menu is in `auto_add` iff auto-add was ticked and it exists. Every listed id is a menu. Other menus keep their setting. |
| NavMenu.UpdateMenuItems | code/gechiui/gc-admin/includes/nav-menu.php:1146-1256 | The notices are the save errors in row order followed by the 'updated' notice. The deleted items are the leftovers. `auto_add` is maintained as above. |
| NavMenu.SaveRows | code/gechiui/gc-admin/includes/nav-menu.php:1183-1204 | The row loop makes the attempts in order, collects an error notice per failure, and takes each successfully saved id off the stored items. |
| NavMenu.SaveRow | code/gechiui/gc-admin/includes/nav-menu.php:1187-1196 | A row is saved iff it has a non-empty title, with its db id and arguments. |
| NavMenu.UpdateAutoAdd | code/gechiui/gc-admin/includes/nav-menu.php:1216-1235 | The option edit computes `NewAutoAdd`, with an unset option starting empty. |
| NavMenu.AddSlashes | code/gechiui/gc-admin/includes/nav-menu.php:1287 | Slashing never shortens a value. |
| NavMenu.StripAddSlashes | code/gechiui/gc-admin/includes/nav-menu.php:1268-1287 | Stripping slashes undoes `gc_slash`. |
| NavMenu.LastIndexOfChar | code/gechiui/gc-admin/includes/nav-menu.php:1274 | The last occurrence of a character, or none when it does not occur. |
| NavMenu.ParseInputName | code/gechiui/gc-admin/includes/nav-menu.php:1274-1280 | The path is non-empty and starts with the whole text before the first '[': the name itself when it has no '[', otherwise the prefix ending just before the first '['. |
| NavMenu.ParseBracketedName | code/gechiui/gc-admin/includes/nav-menu.php:1274-1280 | `p[inner]` gives `p` followed by the `][`-separated pieces of `inner`, and those pieces join back to `inner`. So "a[b][c]" gives [a, b, c]. |
| NavMenu.NestedGet | code/gechiui/gc-admin/includes/nav-menu.php:1284-1291 | The leaf-to-trunk array holds the value at its path. |
| NavMenu.ExpandPlacesLeaf | code/gechiui/gc-admin/includes/nav-menu.php:1285-1293 | After the recursive merge, `$_POST` holds the slashed value at the field's path. |
| NavMenu.ExpandKeepsOtherKeys | code/gechiui/gc-admin/includes/nav-menu.php:1293 | The merge leaves every other top-level key of `$_POST` as it was. |
| NavMenu.ExpandNavMenuPostData | code/gechiui/gc-admin/includes/nav-menu.php:1263-1296 | Without decoded data `$_POST` is unchanged. Otherwise each field's nested array is merged in, in order. |
| NavMenu.BuildNewPostData | code/gechiui/gc-admin/includes/nav-menu.php:1284-1291 | The leaf-to-trunk loop builds `[b0 => [b1 => … [bn => v]]]`. |
| ThemesListTable.TrimAll | code/gechiui/gc-admin/includes/class-gc-themes-list-table.php:54 | Each piece is trimmed, position by position. |
| ThemesListTable.TrimAllMembers | code/gechiui/gc-admin/includes/class-gc-themes-list-table.php:54 | The trimmed pieces are exactly the trims of the pieces. |
| ThemesListTable.TrimmedPieceShape | code/gechiui/gc-admin/includes/class-gc-themes-list-table.php:54 | A trimmed piece of the lower-cased query is lower-case, comma-free and already trimmed. |
| ThemesListTable.SearchTermsShape | code/gechiui/gc-admin/includes/class-gc-themes-list-table.php:53-55 | Terms are listed once. They are exactly the non-falsy trimmed comma-pieces of the lower-cased query, so each is non-empty, not "0", lower-case, comma-free and trimmed. |
| ThemesListTable.FeaturesPresent | code/gechiui/gc-admin/includes/class-gc-themes-list-table.php:302-306 | The feature loop succeeds iff every requested feature is a tag of the theme. |
| ThemesListTable.TermsMatch | code/gechiui/gc-admin/includes/class-gc-themes-list-table.php:309-330 | The phrase loop succeeds iff every term matches the theme. |
| ThemesListTable.SearchTheme | code/gechiui/gc-admin/includes/class-gc-themes-list-table.php:300-333 | A theme is found iff every feature is a tag and every term matches, either as a tag or case-insensitively inside a display header, the stylesheet or the template. With neither features nor terms, every theme is found. |
| ThemesListTable.InsertByName | code/gechiui/gc-admin/includes/class-gc-themes-list-table.php:70 | Insertion adds exactly the one theme (multiset). |
| ThemesListTable.SortByName | code/gechiui/gc-admin/includes/class-gc-themes-list-table.php:70 | The name sort is a permutation of the themes. |
| ThemesListTable.InsertByNameOrdered | code/gechiui/gc-admin/includes/class-gc-themes-list-table.php:70 | Inserting a theme into a name-ordered list keeps it name-ordered, under a comparison that orders every pair one way or the other. |
| ThemesListTable.SortByNameOrdered | code/gechiui/gc-admin/includes/class-gc-themes-list-table.php:70 | Under such a comparison, every listed theme's name sorts no later than the next one's. |
| ThemesListTable.ListedMembers | code/gechiui/gc-admin/includes/class-gc-themes-list-table.php:61-70 | A theme is listed iff it is installed, is not the active stylesheet, and either no search was requested or the search finds it. |
| ThemesListTable.PageContents | code/gechiui/gc-admin/includes/class-gc-themes-list-table.php:72-77 | A page holds at most 36 themes. Item i of page p is listed theme (p − 1)·36 + i. Every listed theme in that window is on the page. |
| ThemesListTable.TotalPages | code/gechiui/gc-admin/includes/class-gc-themes-list-table.php:79-85 | The page count is the fewest 36-theme pages that hold all the themes. |
| ThemesListTable.TablenavNeedsSecondPage | code/gechiui/gc-admin/includes/class-gc-themes-list-table.php:139-142 | The pagination is drawn iff there are more than 36 themes. |
| ThemesListTable.ThemesListTable.constructor | code/gechiui/gc-admin/includes/class-gc-themes-list-table.php:20-38 | The table starts with no terms, no features and no items. |
| ThemesListTable.ThemesListTable.PrepareItems | code/gechiui/gc-admin/includes/class-gc-themes-list-table.php:50-86 | Terms and features are replaced only when given. The items are the requested page of the listed themes, and the total is the number listed. |
| ThemesListTable.ListThemes | code/gechiui/gc-admin/includes/class-gc-themes-list-table.php:61-70 | The filtering (only when searching), the removal of the active theme and the sort compute `Listed`. |
| ThemesListTable.KeepMatching | code/gechiui/gc-admin/includes/class-gc-themes-list-table.php:61-69 | The unset loop keeps exactly the found themes, in order. |
| BlockType.DefaultOf | code/gechiui/gc-includes/class-gc-block-type.php:290 | A default taken from a schema is never null. |
| BlockType.FillDefaultsGet | code/gechiui/gc-includes/class-gc-block-type.php:289-293 | After the default loop, a missing attribute whose schema has a default holds it. Every other key is as before. |
| BlockType.PreparedGet | code/gechiui/gc-includes/class-gc-block-type.php:260-296 | For each name: a supplied value stays unless its declaration rejects it. A rejected or missing declared attribute takes its schema default, if any. Nothing else appears. |
| BlockType.DefaultsPresent | code/gechiui/gc-includes/class-gc-block-type.php:288-293 | Every declared attribute with a default is present after preparation. A supplied value the schema accepts is never replaced. |
| BlockType.AssignGet | code/gechiui/gc-includes/class-gc-block-type.php:324-326 | After the property loop each argument's property holds the argument, and every other property is unchanged. |
| BlockType.SetPropsUnfiltered | code/gechiui/gc-includes/class-gc-block-type.php:306-326 | With the filter leaving the arguments alone: `name` is the block's name; `render_callback` is the given callback or null; every other argument becomes a property. |
| BlockType.BlockType.constructor | code/gechiui/gc-includes/class-gc-block-type.php:217-221 | The declared defaults with the name set, then the filtered arguments applied. |
| BlockType.BlockType.SetProps | code/gechiui/gc-includes/class-gc-block-type.php:305-327 | The properties become the old ones with the defaulted, named and filtered arguments assigned one by one. |
| BlockType.BlockType.GetAttributes | code/gechiui/gc-includes/class-gc-block-type.php:335-339 | The schema when it is an array, else the empty array. |
| BlockType.BlockType.PrepareAttributesForRender | code/gechiui/gc-includes/class-gc-block-type.php:260-296 | With no schema the attributes are returned verbatim. Otherwise the two loops compute `Prepared`. |
| BlockType.BlockType.Render | code/gechiui/gc-includes/class-gc-block-type.php:231-238 | A block type that is not dynamic renders ''. A dynamic one returns its callback's output on the prepared attributes and the content. |
| BlockType.KeepStaying | code/gechiui/gc-includes/class-gc-block-type.php:267-284 | The validation loop keeps exactly the undeclared attributes and the valid declared ones, in order. |
| SitemapsTaxonomies.DefaultQueryArgs | code/gechiui/gc-includes/sitemaps/providers/class-gc-sitemaps-taxonomies.php:171-198 | The unfiltered query asks for the taxonomy, one sitemap page (max URLs) of terms, and no offset. |
| SitemapsTaxonomies.PageOffset | code/gechiui/gc-includes/sitemaps/providers/class-gc-sitemaps-taxonomies.php:91 | The offset of a page from 1 on is never negative. |
| SitemapsTaxonomies.PageQuery | code/gechiui/gc-includes/sitemaps/providers/class-gc-sitemaps-taxonomies.php:91-94 | The page's query carries the offset (page − 1)·max written over the filtered arguments. |
| SitemapsTaxonomies.PageWindows | code/gechiui/gc-includes/sitemaps/providers/class-gc-sitemaps-taxonomies.php:91-94 | With the query filter as identity, a page asks for max terms, and consecutive pages' windows abut. Term position j lies in the window of exactly one page, page j / max + 1. |
| SitemapsTaxonomies.EntriesOfLinkedTerms | code/gechiui/gc-includes/sitemaps/providers/class-gc-sitemaps-taxonomies.php:98-121 | There is one entry per term whose link is not an error, in query order. Entry i is the filtered `loc` entry of the i-th linked term. |
| SitemapsTaxonomies.GetUrlList | code/gechiui/gc-includes/sitemaps/providers/class-gc-sitemaps-taxonomies.php:56-125 | An unsupported taxonomy has no URLs. A pre-filter answer is returned as it is. Otherwise the result is the entries of the page's terms. |
| SitemapsTaxonomies.CeilDiv | code/gechiui/gc-includes/sitemaps/providers/class-gc-sitemaps-taxonomies.php:161 | The fewest pages of the given size that hold the count. |
| SitemapsTaxonomies.GetMaxNumPages | code/gechiui/gc-includes/sitemaps/providers/class-gc-sitemaps-taxonomies.php:135-162 | An empty subtype gives 0. A pre-filter answer is returned as it is. Otherwise the result is the ceiling of the term count over max URLs. |
| SitemapsTaxonomies.PagesCoverTerms | code/gechiui/gc-includes/sitemaps/providers/class-gc-sitemaps-taxonomies.php:159-161 | Whatever the query filter does, every counted term lies on one of the announced pages, and the last announced page is not empty. |

## Left out

- Hooks: every `apply_filters` is a function parameter (or an `env` field), and `do_action` calls are not modelled; what plugins do is outside the core.
- Database and queries (`GC_Term_Query`, `gc_count_terms`, `gc_get_themes`, `gc_get_nav_menu_items`, `gc_update_nav_menu_item`, `gc_delete_post`, `is_nav_menu`, `is_nav_menu_item`, `get_option`/`update_option`): results are given sequences or functions, and the deletions of `gc_nav_menu_update_menu_items` are returned as a set of ids rather than performed.
- `gc_count_terms` returning an error object, and `total_pages` with per-page 0: not modelled; the count is a natural number and the page size positive.
- File system (`file_exists`, `filesize`, `file_get_contents`), regular-expression extraction of `url(...)` matches, `dirname`, `gc_make_link_relative`, `set_url_scheme`, `add_query_arg`, `esc_attr`, `esc_url`, `html_entity_decode`, `json_decode`, `gc_json_encode`, `strip_tags` and the translated header display: foreign calls, passed in as functions or given as inputs.
- `SitemapsTaxonomies.GetMaxNumPages`: PHP's float `ceil( $count / $max )` is integer ceiling division, and `gc_sitemaps_get_max_urls` is assumed positive.
- `get_object_subtypes` is the set `supported`; the `gc_sitemaps_taxonomies` filter over it is not modelled further.
- `ThemesListTable.ThemesListTable.PrepareItems`: `get_pagenum` is an input of at least 1, and `GC_Theme::sort_by_name` is a stable insertion sort under a given comparison; the tie order of PHP's `usort` is not modelled; the list is a permutation, and it is in name order for any comparison that orders every pair (`SortByNameOrdered`).
- `ThemesListTable.SearchTerms`: `gc_unslash` of the query is not modelled.
- `StyleInliner.SortBySize`: the comparator at script-loader.php:2737 never returns 0 (`<=` gives -1, otherwise 1), so the order `usort` leaves among equal sizes is unspecified; the model's insertion sort fixes one such order, and only sortedness and permutation are proved.
- `TinymceInit.EntryText`: settings values are booleans, integers and strings; null, float and array values, which `_parse_init` would quote in their string form, are not modelled.
- `NavMenu.LooseEquals`: PHP 8 loose comparison of an integer key with a posted string is modelled for decimal strings only (optionally negative); leading zeros are accepted (`3 == "03"`), while leading or trailing whitespace, a "+" sign, a fractional part and exponents are treated as unequal.
- `NavMenu.UpdateMenuItems`: the stored items are indexed by db id; their order and the `$menu_items` array itself are not modelled, only the set of ids left to delete. A stored `auto_add` option that already holds the selected menu twice loses only its first copy, as in the source; `AutoAddMaintained` assumes a duplicate-free option.
- `NavMenu.ExpandNavMenuPostData`: `json_decode` and `stripslashes` of `nav-menu-data` are an input (`decoded`); the pattern `([^\[]*)(\[(.+)\])?` is evaluated by hand as `ParseInputName`, and PHP's integer-key coercion of numeric path pieces is not modelled.
- The quick-search request handling of `_gc_ajax_menu_quick_search` beyond the response format, and the meta-box markup: presentation.
- `Editor.Editors.EditorSettings`: the external-plugin language loading (`$ext_plugins`, `include_once`), the `mce_css` URL assembly, `body_class` (taken as an input suffix) and the baseurl/suffix/version strings are inputs; the first-init and per-editor arrays are modelled as settings built by `FirstInit` and `MceInit`.
- `Editor.Editors.ParseSettings`: the arguments are those returned by the 'gc_editor_settings' filter; `gc_parse_args` is `ParseArgs` over the keys the core reads; `user_can_richedit()` and the 'ed_size' cookie are inputs.
- `Editor.DropUntranslated`: the translation table itself (hundreds of strings) and its translated text are inputs; keys are assumed unique after the filter, as PHP array keys are.
- `Editor.Editors.PrintTinymceScripts`: the `script_concat_settings()` call made when `$concatenate_scripts` is unset (class-gc-editor.php:1531-1533) and the printed `gc-tinymce` script and translation text are not modelled; only the run-once flag and the locale memoised by `gc_mce_translation()` are.
- `Editor.Editors.MceTranslation`: `is_rtl()` is an input; the JSON/`tinymce.addI18n` output string is not modelled.
- `Editor.LinkQueryOffset`: `gc_link_query` beyond its offset (the post query, the results list and the `false` return) is not modelled.
- `force_uncompressed_tinymce`, `editor()` markup, `editor_js`, `enqueue_scripts` and the inline localisation tables: presentation.
- The lodash/moment inline scripts and the rest of `gc_default_packages_inline_scripts`, and the registration tables of `gc_default_scripts`/`gc_default_styles`: configuration data.
- `ScriptLoader.ScriptsLoadSrc`: the result is the site-relative load-scripts.php path; the `site_url()` wrapper at script-loader.php:2031 is a foreign call and is not applied.
- `ScriptLoader.StylesLoadHref`: likewise the site-relative load-styles.php path, without the `site_url()` wrapper of script-loader.php:2205.
- `ScriptLoader.SanitizeScriptAttributes`: `esc_attr` is a parameter; values other than booleans and strings do not occur.
- `BlockType.BlockType.PrepareAttributesForRender`: `rest_validate_value_from_schema` is the predicate `valid`; a schema property that is neither null nor an array is excluded, since PHP itself rejects it in `array_diff_key`.
- `BlockType.BlockType.Render`: `is_callable` holds exactly for values modelled as callables, and `call_user_func` is the parameter `invoke`; the schema shape is only required of a dynamic block, whose render prepares the attributes.
- `BlockType.BlockType.SetProps`: `gc_parse_args` of a query string is not modelled; the arguments are an array.

## Findings

| source | as written | input that shows it | evidently intended | confidence | as-written member | corrected member |
|---|---|---|---|---|---|---|
| code/gechiui/gc-includes/script-loader.php:516-518 | `array_merge( $tinymce_settings, $editor_settings['tinymce'] )` is computed and its result discarded, so the editor's TinyMCE settings never reach the classic block | `editor_settings['tinymce'] = array( 'height' => 300 )` | the merged array is assigned back, so the editor's settings override the defaults and reach the 'tiny_mce_before_init' filter and the serialised object (`ClassicBlockInitObjectIntended`) | not executed | ScriptLoader.ClassicBlockDropsEditorSettings | ScriptLoader.ClassicBlockHonoursEditorSettings |
