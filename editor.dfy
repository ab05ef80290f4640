/** The settings assembly of `_GC_Editors`: the per-instance TinyMCE and
    Quicktags decisions, the plugin and button lists, the settings arrays
    kept per editor id in the class's static fields, the memoised TinyMCE
    locale, the translation table and the run-once printing flags. The
    object-literal serialiser `_parse_init` is `TinymceInit.ParseInit`. */
module Editor {
  import opened Wrappers
  import opened Php
  import opened TinymceInit

  // ---------------------------------------------------------------------
  // parse_settings

  /** `$settings['tinymce']`: a flag, or settings passed straight through. */
  datatype TinymceArg = TinymceFlag(on: bool) | TinymceArray(settings: Settings)

  /** `$settings['quicktags']`: a flag, or Quicktags settings. */
  datatype QuicktagsArg = QuicktagsFlag(on: bool) | QuicktagsArray(settings: Settings)

  /** The editor arguments a caller supplies; `None` is an absent key. */
  datatype EditorArgs = EditorArgs(
    tinymce: Option<TinymceArg>,
    quicktags: Option<QuicktagsArg>,
    teeny: Option<bool>,
    contentEditorDfw: Option<bool>,
    gcautop: Option<bool>,
    tabfocusElements: Option<string>,
    editorHeight: Option<int>)

  /** The parsed arguments the rest of the editor reads. */
  datatype EditorSet = EditorSet(
    tinymce: TinymceArg,
    quicktags: QuicktagsArg,
    teeny: bool,
    contentEditorDfw: bool,
    gcautop: bool,
    tabfocusElements: string,
    editorHeight: Option<int>)

  /** `gc_parse_args` against the defaults: autop is on unless the post
      has blocks, both editors are on, teeny and the DFW flag are off. */
  function ParseArgs(args: EditorArgs, hasBlocks: bool): (es: EditorSet)
    ensures args.tinymce.None? ==> es.tinymce == TinymceFlag(true)
    ensures args.quicktags.None? ==> es.quicktags == QuicktagsFlag(true)
    ensures args.teeny.None? ==> !es.teeny
    ensures args.contentEditorDfw.None? ==> !es.contentEditorDfw
    ensures args.gcautop.None? ==> es.gcautop == !hasBlocks
    ensures args.tabfocusElements.None? ==> es.tabfocusElements == ":prev,:next"
    ensures args.tinymce.Some? ==> es.tinymce == args.tinymce.value
    ensures args.quicktags.Some? ==> es.quicktags == args.quicktags.value
    ensures args.teeny.Some? ==> es.teeny == args.teeny.value
    ensures args.contentEditorDfw.Some? ==> es.contentEditorDfw == args.contentEditorDfw.value
    ensures args.gcautop.Some? ==> es.gcautop == args.gcautop.value
    ensures args.tabfocusElements.Some? ==> es.tabfocusElements == args.tabfocusElements.value
    ensures es.editorHeight == args.editorHeight
  {
    EditorSet(
      args.tinymce.GetOr(TinymceFlag(true)),
      args.quicktags.GetOr(QuicktagsFlag(true)),
      args.teeny.GetOr(false),
      args.contentEditorDfw.GetOr(false),
      args.gcautop.GetOr(!hasBlocks),
      args.tabfocusElements.GetOr(":prev,:next"),
      args.editorHeight)
  }

  /** PHP truthiness of the `tinymce` argument: an empty array is false. */
  predicate TinymceOn(t: TinymceArg) {
    match t
    case TinymceFlag(b) => b
    case TinymceArray(a) => a != []
  }

  predicate QuicktagsOn(q: QuicktagsArg) {
    match q
    case QuicktagsFlag(b) => b
    case QuicktagsArray(a) => a != []
  }

  /** `! empty( $es['tinymce']['gc_autoresize_on'] )`; a flag has no keys. */
  predicate AutoresizeOn(t: TinymceArg) {
    t.TinymceArray? && Get(t.settings, "gc_autoresize_on").Some? && !Falsy(Get(t.settings, "gc_autoresize_on").value)
  }

  /** Whether an editor id allows TinyMCE: ids with '[' do not. */
  predicate TinymceAllowedId(editorId: string) {
    '[' !in editorId
  }

  const MinEditorHeight: int := 50
  const MaxEditorHeight: int := 5000

  /** The height clamp. */
  function ClampHeight(h: int): (r: int)
    ensures MinEditorHeight <= r <= MaxEditorHeight
    ensures MinEditorHeight <= h <= MaxEditorHeight ==> r == h
    ensures h < MinEditorHeight ==> r == MinEditorHeight
    ensures h > MaxEditorHeight ==> r == MaxEditorHeight
  {
    if h < MinEditorHeight then MinEditorHeight else if h > MaxEditorHeight then MaxEditorHeight else h
  }

  /** The height after `parse_settings`: an empty height stays as it was; the
      main 'content' editor without autoresize takes a non-zero size
      cookie; the result is clamped. */
  function SettledHeight(h: Option<int>, editorId: string, tinymce: TinymceArg, sizeCookie: int): (r: Option<int>)
    ensures h.None? || h == Some(0) ==> r == h
    ensures h.Some? && h != Some(0) ==> r.Some? && MinEditorHeight <= r.value <= MaxEditorHeight
    ensures h.Some? && h != Some(0) && (editorId != "content" || AutoresizeOn(tinymce) || sizeCookie == 0) ==> r == Some(ClampHeight(h.value))
  {
    if h.None? || h.value == 0 then h
    else
      var height := if editorId == "content" && !AutoresizeOn(tinymce) && sizeCookie != 0 then sizeCookie else h.value;
      Some(ClampHeight(height))
  }

  // ---------------------------------------------------------------------
  // editor_settings: Quicktags

  const DefaultQuicktagsButtons: string := "strong,em,link,block,del,ins,img,ul,ol,li,code,more,close"

  /** The Quicktags init array before the `quicktags_settings` filter. */
  function QuicktagsInit(editorId: string, quicktags: QuicktagsArg, dfw: bool): Settings {
    var base: Settings := [("id", SStr(editorId)), ("buttons", SStr(""))];
    var qt := if quicktags.QuicktagsArray? then Merge(base, quicktags.settings) else base;
    var current := Get(qt, "buttons");
    var useDefault := current.None? || Falsy(current.value);
    var text := if useDefault then DefaultQuicktagsButtons else ValueText(current.value);
    var qt := if useDefault then Put(qt, "buttons", SStr(DefaultQuicktagsButtons)) else qt;
    if dfw then Put(qt, "buttons", SStr(text + ",dfw")) else qt
  }

  /** The buttons string of a Quicktags init array; a missing key reads as
      PHP's null, the empty string. */
  function QuicktagsButtons(qt: Settings): string {
    ValueText(Get(qt, "buttons").GetOr(SStr("")))
  }

  /** Without usable buttons of its own, an editor gets the default list,
      followed by ',dfw' for the DFW content editor. */
  lemma QuicktagsDefaultButtons(editorId: string, quicktags: QuicktagsArg, dfw: bool)
    requires quicktags.QuicktagsArray? ==> UniqueKeys(quicktags.settings)
    requires quicktags.QuicktagsArray? ==>
               Get(quicktags.settings, "buttons").None? || Falsy(Get(quicktags.settings, "buttons").value)
    ensures QuicktagsButtons(QuicktagsInit(editorId, quicktags, dfw)) == DefaultQuicktagsButtons + (if dfw then ",dfw" else "")
  {
    var base: Settings := [("id", SStr(editorId)), ("buttons", SStr(""))];
    var qt := if quicktags.QuicktagsArray? then Merge(base, quicktags.settings) else base;
    GetFirst(base, "buttons", 1);
    if quicktags.QuicktagsArray? {
      MergeGet(base, quicktags.settings, "buttons");
    }
    var qt' := Put(qt, "buttons", SStr(DefaultQuicktagsButtons));
    PutGet(qt, "buttons", SStr(DefaultQuicktagsButtons), "buttons");
    if dfw {
      PutGet(qt', "buttons", SStr(DefaultQuicktagsButtons + ",dfw"), "buttons");
    } else {
      assert DefaultQuicktagsButtons + "" == DefaultQuicktagsButtons;
    }
  }

  /** Buttons an editor supplies are kept, with ',dfw' appended for the
      DFW content editor. */
  lemma QuicktagsOwnButtons(editorId: string, quicktags: QuicktagsArg, dfw: bool)
    requires quicktags.QuicktagsArray? && UniqueKeys(quicktags.settings)
    requires Get(quicktags.settings, "buttons").Some? && !Falsy(Get(quicktags.settings, "buttons").value)
    ensures QuicktagsButtons(QuicktagsInit(editorId, quicktags, dfw))
            == ValueText(Get(quicktags.settings, "buttons").value) + (if dfw then ",dfw" else "")
  {
    var base: Settings := [("id", SStr(editorId)), ("buttons", SStr(""))];
    var qt := Merge(base, quicktags.settings);
    MergeGet(base, quicktags.settings, "buttons");
    if dfw {
      PutGet(qt, "buttons", SStr(ValueText(Get(qt, "buttons").value) + ",dfw"), "buttons");
    } else {
      var v := ValueText(Get(quicktags.settings, "buttons").value);
      assert v + "" == v;
    }
  }

  // ---------------------------------------------------------------------
  // editor_settings: the first TinyMCE init

  const TeenyPlugins: seq<string> := ["colorpicker", "lists", "fullscreen", "image", "gechiui", "gceditimage", "gclink"]

  /** The default internal plugins; 'image' is added when the media library
      is not in use. */
  function DefaultPlugins(hasMedialib: bool): (r: seq<string>)
    ensures "image" in r <==> !hasMedialib
  {
    var plugins := ["charmap", "colorpicker", "hr", "lists", "media", "paste", "tabfocus", "textcolor", "fullscreen",
                    "gechiui", "gcautoresize", "gceditimage", "gcemoji", "gcgallery", "gclink", "gcdialogs",
                    "gctextpattern", "gcview"];
    if hasMedialib then plugins else plugins + ["image"]
  }

  /** `array_unique` of the filtered list, then 'spellchecker' unset. */
  function InternalPlugins(filtered: seq<string>): (r: seq<string>)
    ensures NoDuplicates(r)
    ensures "spellchecker" !in r
    ensures forall p :: p in r <==> p in filtered && p != "spellchecker"
  {
    var u := Unique(filtered);
    if "spellchecker" in u then
      RemoveAtNoDuplicates(u, FirstIndex(u, "spellchecker"));
      RemoveAt(u, FirstIndex(u, "spellchecker"))
    else u
  }

  /** The external plugins after the loop: a name that is also an internal
      plugin is dropped, every other URL is passed through `scheme`
      (`set_url_scheme`). */
  function ExternalPlugins(external: Assoc<string>, plugins: seq<string>, scheme: string -> string): (r: Assoc<string>)
    ensures forall k :: k in plugins ==> Get(r, k).None?
    ensures forall k :: k !in plugins ==> Get(r, k) == if Get(external, k).None? then None else Some(scheme(Get(external, k).value))
    decreases |external|
  {
    if external == [] then []
    else
      var rest := ExternalPlugins(external[1..], plugins, scheme);
      if external[0].0 in plugins then rest else [(external[0].0, scheme(external[0].1))] + rest
  }

  /** The hooks and surroundings `editor_settings` reads. */
  datatype EditorEnv = EditorEnv(
    pluginsFilter: seq<string> -> seq<string>,                // 'tiny_mce_plugins'
    teenyPluginsFilter: seq<string> -> seq<string>,           // 'teeny_mce_plugins'
    externalPlugins: Assoc<string>,                           // 'mce_external_plugins'
    setUrlScheme: string -> string,
    jsonEncode: Assoc<string> -> string,
    defaultSettings: Settings,                                // `self::default_settings()`
    disableCaptions: bool,                                    // 'disable_captions'
    mceCss: string,                                           // the filtered 'mce_css' list
    buttonsFilter: (string, seq<string>) -> seq<string>,      // the 'mce_buttons*' filters, by hook name
    mobile: bool,                                             // `gc_is_mobile()`
    bodyClassSuffix: string,                                  // post type, status, format, template and locale classes
    beforeInit: (bool, Settings) -> Settings,                 // '(teeny|tiny)_mce_before_init', by teeny flag
    quicktagsFilter: Settings -> Settings)                    // 'quicktags_settings'

  /** The plugin list of the first TinyMCE instance. */
  function FirstPlugins(teeny: bool, hasMedialib: bool, env: EditorEnv): seq<string> {
    if teeny then env.teenyPluginsFilter(TeenyPlugins) else InternalPlugins(env.pluginsFilter(DefaultPlugins(hasMedialib)))
  }

  /** The external plugins of the first TinyMCE instance; a teeny editor has
      none. */
  function FirstExternalPlugins(teeny: bool, hasMedialib: bool, env: EditorEnv): Assoc<string> {
    if teeny then [] else ExternalPlugins(env.externalPlugins, FirstPlugins(teeny, hasMedialib, env), env.setUrlScheme)
  }

  /** `self::$first_init`: the defaults, the plugin list, the external
      plugins as JSON when there are any, the captions flag and the trimmed
      stylesheet list, which is dropped when empty. */
  function FirstInit(teeny: bool, hasMedialib: bool, env: EditorEnv): Settings {
    var plugins := FirstPlugins(teeny, hasMedialib, env);
    var external := FirstExternalPlugins(teeny, hasMedialib, env);
    var s := Put(env.defaultSettings, "plugins", SStr(Implode(plugins, ",")));
    var s := if external != [] then Put(s, "external_plugins", SStr(env.jsonEncode(external))) else s;
    var s := if env.disableCaptions then Put(s, "gceditimage_disable_captions", SBool(true)) else s;
    var css := Trim(env.mceCss, SpaceComma);
    if !EmptyStr(css) then Put(s, "content_css", SStr(css)) else Unset(s, "content_css")
  }

  /** The plugin list of a full editor is duplicate-free, never holds
      'spellchecker', and no external plugin shares a name with it. */
  lemma FullEditorPlugins(hasMedialib: bool, env: EditorEnv)
    ensures var plugins := FirstPlugins(false, hasMedialib, env);
            NoDuplicates(plugins) && "spellchecker" !in plugins
            && forall k :: k in plugins ==> Get(FirstExternalPlugins(false, hasMedialib, env), k).None?
  {
  }

  // ---------------------------------------------------------------------
  // editor_settings: buttons and the per-editor init

  const TeenyButtons: seq<string> := ["bold", "italic", "underline", "blockquote", "strikethrough", "bullist", "numlist",
                                      "alignleft", "aligncenter", "alignright", "undo", "redo", "link", "fullscreen"]

  /** The first toolbar of a full editor: the DFW editor swaps 'fullscreen'
      for 'dfw' after the kitchen-sink toggle; mobile has neither. */
  function DefaultButtons1(mobile: bool, dfw: bool): seq<string> {
    var buttons := ["formatselect", "bold", "italic", "bullist", "numlist", "blockquote", "alignleft", "aligncenter",
                    "alignright", "link", "gc_more", "spellchecker"];
    if mobile then buttons + ["gc_adv"]
    else if dfw then buttons + ["gc_adv", "dfw"]
    else buttons + ["fullscreen", "gc_adv"]
  }

  function DefaultButtons2(mobile: bool): seq<string> {
    var buttons := ["strikethrough", "hr", "forecolor", "pastetext", "removeformat", "charmap", "outdent", "indent", "undo", "redo"];
    if mobile then buttons else buttons + ["gc_help"]
  }

  /** The four filtered button rows. */
  function Toolbars(teeny: bool, dfw: bool, env: EditorEnv): seq<seq<string>> {
    if teeny then [env.buttonsFilter("teeny_mce_buttons", TeenyButtons), [], [], []]
    else [env.buttonsFilter("mce_buttons", DefaultButtons1(env.mobile, dfw)),
          env.buttonsFilter("mce_buttons_2", DefaultButtons2(env.mobile)),
          env.buttonsFilter("mce_buttons_3", []),
          env.buttonsFilter("mce_buttons_4", [])]
  }

  /** Whether the shift applies: toolbar3 empty (or absent), toolbar4 not. */
  predicate ShiftsToolbar(init: Settings) {
    (Get(init, "toolbar3").None? || Falsy(Get(init, "toolbar3").value))
    && Get(init, "toolbar4").Some? && !Falsy(Get(init, "toolbar4").value)
  }

  /** An empty third toolbar takes the fourth, which becomes ''. */
  function ToolbarShift(init: Settings): Settings {
    if ShiftsToolbar(init) then Put(Put(init, "toolbar3", Get(init, "toolbar4").value), "toolbar4", SStr("")) else init
  }

  /** After the shift, toolbar3 holds what toolbar4 held and toolbar4 is
      ''; without the shift, or for any other key, nothing changes. */
  lemma ToolbarShiftGet(init: Settings, k: string)
    ensures Get(ToolbarShift(init), k) ==
              if ShiftsToolbar(init) && k == "toolbar3" then Get(init, "toolbar4")
              else if ShiftsToolbar(init) && k == "toolbar4" then Some(SStr(""))
              else Get(init, k)
  {
    if ShiftsToolbar(init) {
      var moved := Put(init, "toolbar3", Get(init, "toolbar4").value);
      PutGet(init, "toolbar3", Get(init, "toolbar4").value, k);
      PutGet(moved, "toolbar4", SStr(""), k);
    }
  }

  /** The shift settles: applied to its own result it changes nothing. */
  lemma ToolbarShiftIdempotent(init: Settings)
    ensures ToolbarShift(ToolbarShift(init)) == ToolbarShift(init)
  {
    if ShiftsToolbar(init) {
      ToolbarShiftGet(init, "toolbar3");
      ToolbarShiftGet(init, "toolbar4");
      assert Falsy(SStr(""));
    }
  }

  /** The `body_class` setting of the editor's own TinyMCE array, when it
      is non-empty. */
  function ExtraBodyClass(t: TinymceArg): Option<string> {
    if t.TinymceArray? && Get(t.settings, "body_class").Some? && !Falsy(Get(t.settings, "body_class").value)
    then Some(ValueText(Get(t.settings, "body_class").value)) else None
  }

  /** `self::$mce_settings[ $editor_id ]` for an editor whose first init is
      `first`. */
  function MceInit(editorId: string, es: EditorSet, first: Settings, env: EditorEnv): Settings {
    var rows := Toolbars(es.teeny, es.contentEditorDfw, env);
    var extra := ExtraBodyClass(es.tinymce);
    var bodyClass := editorId + env.bodyClassSuffix + (if extra.Some? then " " + extra.value else "");
    var own: Settings := [
      ("selector", SStr("#" + editorId)),
      ("gcautop", SBool(es.gcautop)),
      ("indent", SBool(!es.gcautop)),
      ("toolbar1", SStr(Implode(rows[0], ","))),
      ("toolbar2", SStr(Implode(rows[1], ","))),
      ("toolbar3", SStr(Implode(rows[2], ","))),
      ("toolbar4", SStr(Implode(rows[3], ","))),
      ("tabfocus_elements", SStr(es.tabfocusElements)),
      ("body_class", SStr(bodyClass))];
    var init := Merge(first, own);
    var init := if es.tinymce.TinymceArray?
                then Merge(init, if extra.Some? then Unset(es.tinymce.settings, "body_class") else es.tinymce.settings)
                else init;
    ToolbarShift(env.beforeInit(es.teeny, init))
  }

  // ---------------------------------------------------------------------
  // get_mce_locale

  /** The TinyMCE locale for a user locale: its first two characters in
      lower case (ISO 639-1), or 'zh_CN' when it is empty. */
  function MceLocaleFor(userLocale: string): (r: string)
    ensures EmptyStr(userLocale) ==> r == "zh_CN"
    ensures !EmptyStr(userLocale) ==> |r| == (if |userLocale| < 2 then |userLocale| else 2)
    ensures !EmptyStr(userLocale) ==> forall i :: 0 <= i < |r| ==> r[i] == LowerChar(userLocale[i])
    ensures !EmptyStr(r)
  {
    if EmptyStr(userLocale) then "zh_CN"
    else ToLower(userLocale[..if |userLocale| < 2 then |userLocale| else 2])
  }

  // ---------------------------------------------------------------------
  // gc_mce_translation

  /** A translation table value: a string, or an array whose first element
      is the string. */
  datatype TranslationValue = TStr(s: string) | TArray(first: string, rest: seq<string>)

  /** The string a translation value stands for. */
  function FirstText(v: TranslationValue): string {
    match v
    case TStr(s) => s
    case TArray(f, _) => f
  }

  /** The first loop: an array value becomes its first element, keys and
      order unchanged. */
  function CollapseTranslations(table: Assoc<TranslationValue>): (r: Assoc<string>)
    ensures |r| == |table|
    ensures forall i :: 0 <= i < |r| ==> r[i] == (table[i].0, FirstText(table[i].1))
    decreases |table|
  {
    if table == [] then [] else [(table[0].0, FirstText(table[0].1))] + CollapseTranslations(table[1..])
  }

  /** A kept value: strings holding '&' go through `decode`
      (`html_entity_decode`). */
  function Decoded(v: string, decode: string -> string): string {
    if '&' in v then decode(v) else v
  }

  /** What the second loop leaves under key `k`. */
  function Translated(v: Option<string>, k: string, decode: string -> string): Option<string> {
    match v
    case None => None
    case Some(s) => if s == k then None else Some(Decoded(s, decode))
  }

  /** The second loop: untranslated entries (value equal to key) go, the
      others are decoded. */
  function DropUntranslated(t: Assoc<string>, decode: string -> string): (r: Assoc<string>)
    requires UniqueKeys(t)
    ensures forall k :: Get(r, k) == Translated(Get(t, k), k, decode)
    decreases |t|
  {
    if t == [] then []
    else
      assert Keys(t) == [t[0].0] + Keys(t[1..]);
      NoDuplicatesTail(Keys(t));
      var rest := DropUntranslated(t[1..], decode);
      if t[0].0 == t[0].1 then rest else [(t[0].0, Decoded(t[0].1, decode))] + rest
  }

  /** The table `gc_mce_translation` encodes: collapsed, filtered by
      `filter` (the 'gc_mce_translation' hook), untranslated entries
      dropped, and `_dir => rtl` added for right-to-left locales. */
  function Translations(table: Assoc<TranslationValue>, filter: Assoc<string> -> Assoc<string>, decode: string -> string, rtl: bool): Assoc<string>
    requires UniqueKeys(filter(CollapseTranslations(table)))
  {
    var t := DropUntranslated(filter(CollapseTranslations(table)), decode);
    if rtl then Put(t, "_dir", "rtl") else t
  }

  /** No entry of the result is untranslated, except possibly `_dir`;
      `_dir` is 'rtl' exactly for right-to-left locales unless the filtered
      table already sets it. */
  lemma TranslationsSettled(table: Assoc<TranslationValue>, filter: Assoc<string> -> Assoc<string>, decode: string -> string, rtl: bool, k: string)
    requires UniqueKeys(filter(CollapseTranslations(table)))
    ensures var t := filter(CollapseTranslations(table));
            var r := Translations(table, filter, decode, rtl);
            (rtl && k == "_dir" ==> Get(r, k) == Some("rtl"))
            && (!(rtl && k == "_dir") ==> Get(r, k) == Translated(Get(t, k), k, decode))
  {
    var t := DropUntranslated(filter(CollapseTranslations(table)), decode);
    if rtl {
      PutGet(t, "_dir", "rtl", k);
    }
  }

  // ---------------------------------------------------------------------
  // gc_link_query

  const LinkQueryPerPage: nat := 20

  /** The query offset for an optional page number (`absint`, default 1). */
  function LinkQueryOffset(pagenum: Option<int>): (offset: nat)
    ensures offset % LinkQueryPerPage == 0
    ensures pagenum.None? ==> offset == 0
    ensures pagenum.Some? ==> var p := if pagenum.value < 0 then -pagenum.value else pagenum.value;
                              offset == if p > 1 then LinkQueryPerPage * (p - 1) else 0
  {
    var p := if pagenum.None? then 1 else if pagenum.value < 0 then -pagenum.value else pagenum.value;
    if p > 1 then LinkQueryPerPage * (p - 1) else 0
  }

  // ---------------------------------------------------------------------
  // The static state of _GC_Editors

  class Editors {
    var thisTinymce: bool
    var thisQuicktags: bool
    var hasTinymce: bool
    var hasQuicktags: bool
    var hasMedialib: bool
    var firstInit: Settings            // empty until the first TinyMCE editor
    var plugins: seq<string>
    var qtSettings: map<string, Settings>
    var qtButtons: seq<string>
    var mceSettings: map<string, Settings>
    var mceLocale: string              // empty until first asked for
    var tinymceScriptsPrinted: bool
    var linkDialogPrinted: bool

    /** The declared initial values of the static fields. */
    constructor ()
      ensures !thisTinymce && !thisQuicktags && !hasTinymce && !hasQuicktags && !hasMedialib
      ensures firstInit == [] && plugins == [] && qtSettings == map[] && qtButtons == [] && mceSettings == map[]
      ensures mceLocale == "" && !tinymceScriptsPrinted && !linkDialogPrinted
    {
      thisTinymce, thisQuicktags, hasTinymce, hasQuicktags, hasMedialib := false, false, false, false, false;
      firstInit, plugins, qtSettings, qtButtons, mceSettings := [], [], map[], [], map[];
      mceLocale, tinymceScriptsPrinted, linkDialogPrinted := "", false, false;
    }

    /** `parse_settings`: decides which editors this instance gets, records
        that each was used at least once, and settles the height.
        `userCanRichedit` and `sizeCookie` (the 'ed_size' user setting) come
        from the user's session. */
    method ParseSettings(editorId: string, args: EditorArgs, hasBlocks: bool, userCanRichedit: bool, sizeCookie: int)
      returns (es: EditorSet)
      modifies this`thisTinymce, this`thisQuicktags, this`hasTinymce, this`hasQuicktags
      ensures var parsed := ParseArgs(args, hasBlocks);
              es == parsed.(editorHeight := SettledHeight(parsed.editorHeight, editorId, parsed.tinymce, sizeCookie))
      ensures thisTinymce == (TinymceOn(es.tinymce) && userCanRichedit && TinymceAllowedId(editorId))
      ensures thisQuicktags == QuicktagsOn(es.quicktags)
      ensures hasTinymce == (old(hasTinymce) || thisTinymce)
      ensures hasQuicktags == (old(hasQuicktags) || thisQuicktags)
    {
      es := ParseArgs(args, hasBlocks);
      thisTinymce := TinymceOn(es.tinymce) && userCanRichedit;
      if thisTinymce {
        if '[' in editorId {
          thisTinymce := false;
        }
      }
      thisQuicktags := QuicktagsOn(es.quicktags);
      if thisTinymce {
        hasTinymce := true;
      }
      if thisQuicktags {
        hasQuicktags := true;
      }
      if es.editorHeight.None? || es.editorHeight.value == 0 {
        return;
      }
      var height := SettleHeight(es.editorHeight.value, editorId, es.tinymce, sizeCookie);
      es := es.(editorHeight := Some(height));
    }

    /** `editor_settings`: records the Quicktags settings and buttons and
        the TinyMCE settings of this editor; the first TinyMCE editor also
        fixes the plugin list and the shared first init. */
    method EditorSettings(editorId: string, es: EditorSet, env: EditorEnv, userLocale: string)
      modifies this`qtSettings, this`qtButtons, this`firstInit, this`plugins, this`mceSettings, this`mceLocale
      ensures old(thisQuicktags) ==>
                var qt := env.quicktagsFilter(QuicktagsInit(editorId, es.quicktags, es.contentEditorDfw));
                qtSettings == old(qtSettings)[editorId := qt]
                && qtButtons == old(qtButtons) + Explode(QuicktagsButtons(qt), ",")
      ensures !old(thisQuicktags) ==> qtSettings == old(qtSettings) && qtButtons == old(qtButtons)
      ensures old(thisTinymce && firstInit == []) ==>
                firstInit == FirstInit(es.teeny, old(hasMedialib), env) && plugins == FirstPlugins(es.teeny, old(hasMedialib), env)
      ensures !old(thisTinymce && firstInit == []) ==> firstInit == old(firstInit) && plugins == old(plugins)
      ensures old(thisTinymce && firstInit == [] && EmptyStr(mceLocale)) ==> mceLocale == MceLocaleFor(userLocale)
      ensures !old(thisTinymce && firstInit == [] && EmptyStr(mceLocale)) ==> mceLocale == old(mceLocale)
      ensures old(thisTinymce) ==> mceSettings == old(mceSettings)[editorId := MceInit(editorId, es, firstInit, env)]
      ensures !old(thisTinymce) ==> mceSettings == old(mceSettings)
    {
      if thisQuicktags {
        RecordQuicktags(editorId, es, env);
      }
      if thisTinymce {
        RecordTinymce(editorId, es, env, userLocale);
      }
    }

    /** The Quicktags part of `editor_settings`. */
    method RecordQuicktags(editorId: string, es: EditorSet, env: EditorEnv)
      modifies this`qtSettings, this`qtButtons
      ensures var qt := env.quicktagsFilter(QuicktagsInit(editorId, es.quicktags, es.contentEditorDfw));
              qtSettings == old(qtSettings)[editorId := qt]
              && qtButtons == old(qtButtons) + Explode(QuicktagsButtons(qt), ",")
    {
      var qtInit := env.quicktagsFilter(QuicktagsInit(editorId, es.quicktags, es.contentEditorDfw));
      qtSettings := qtSettings[editorId := qtInit];
      qtButtons := qtButtons + Explode(QuicktagsButtons(qtInit), ",");
    }

    /** The TinyMCE part of `editor_settings`. Building the first init asks
        for the TinyMCE locale, which memoises it. */
    method RecordTinymce(editorId: string, es: EditorSet, env: EditorEnv, userLocale: string)
      modifies this`firstInit, this`plugins, this`mceSettings, this`mceLocale
      ensures old(firstInit) == [] ==>
                firstInit == FirstInit(es.teeny, old(hasMedialib), env) && plugins == FirstPlugins(es.teeny, old(hasMedialib), env)
      ensures old(firstInit) == [] && EmptyStr(old(mceLocale)) ==> mceLocale == MceLocaleFor(userLocale)
      ensures old(firstInit) == [] ==> !EmptyStr(mceLocale)
      ensures old(firstInit) != [] ==> firstInit == old(firstInit) && plugins == old(plugins)
      ensures old(firstInit) != [] || !EmptyStr(old(mceLocale)) ==> mceLocale == old(mceLocale)
      ensures mceSettings == old(mceSettings)[editorId := MceInit(editorId, es, firstInit, env)]
    {
      var first := firstInit;
      if first == [] {
        var _ := GetMceLocale(userLocale);
        first := FirstInit(es.teeny, hasMedialib, env);
        plugins := FirstPlugins(es.teeny, hasMedialib, env);
      }
      firstInit := first;
      mceSettings := mceSettings[editorId := MceInit(editorId, es, first, env)];
    }

    /** `get_mce_locale`: computed from the user locale on the first call,
        then always the cached value. */
    method GetMceLocale(userLocale: string) returns (locale: string)
      modifies this`mceLocale
      ensures EmptyStr(old(mceLocale)) ==> locale == MceLocaleFor(userLocale)
      ensures !EmptyStr(old(mceLocale)) ==> locale == old(mceLocale)
      ensures mceLocale == locale && !EmptyStr(mceLocale)
    {
      if EmptyStr(mceLocale) {
        mceLocale := MceLocaleFor(userLocale);
      }
      locale := mceLocale;
    }

    /** `gc_mce_translation` without the JSON and script text: the locale
        used (the given one, or the cached TinyMCE locale when it is falsy)
        and the translation table. */
    method MceTranslation(locale: string, userLocale: string, table: Assoc<TranslationValue>,
                          filter: Assoc<string> -> Assoc<string>, decode: string -> string, rtl: bool)
      returns (usedLocale: string, translations: Assoc<string>)
      requires UniqueKeys(filter(CollapseTranslations(table)))
      modifies this`mceLocale
      ensures !EmptyStr(locale) ==> usedLocale == locale && mceLocale == old(mceLocale)
      ensures EmptyStr(locale) && EmptyStr(old(mceLocale)) ==> usedLocale == MceLocaleFor(userLocale) && mceLocale == usedLocale
      ensures EmptyStr(locale) && !EmptyStr(old(mceLocale)) ==> usedLocale == old(mceLocale) && mceLocale == usedLocale
      ensures translations == Translations(table, filter, decode, rtl)
    {
      usedLocale := locale;
      if EmptyStr(locale) {
        usedLocale := GetMceLocale(userLocale);
      }
      var collapsed := CollapseLoop(table);
      translations := DropLoop(filter(collapsed), decode);
      if rtl {
        translations := Put(translations, "_dir", "rtl");
      }
    }

    /** `print_tinymce_scripts`: prints only on the first call, and the
        translation it prints then asks for the TinyMCE locale, which
        memoises it. */
    method PrintTinymceScripts(userLocale: string) returns (prints: bool)
      modifies this`tinymceScriptsPrinted, this`mceLocale
      ensures prints == !old(tinymceScriptsPrinted)
      ensures tinymceScriptsPrinted
      ensures !old(tinymceScriptsPrinted) && EmptyStr(old(mceLocale)) ==> mceLocale == MceLocaleFor(userLocale)
      ensures !old(tinymceScriptsPrinted) ==> !EmptyStr(mceLocale)
      ensures old(tinymceScriptsPrinted) || !EmptyStr(old(mceLocale)) ==> mceLocale == old(mceLocale)
    {
      if tinymceScriptsPrinted {
        return false;
      }
      tinymceScriptsPrinted := true;
      var _ := GetMceLocale(userLocale);
      prints := true;
    }

    /** `gc_link_dialog`: prints only on the first call. */
    method LinkDialog() returns (prints: bool)
      modifies this`linkDialogPrinted
      ensures prints == !old(linkDialogPrinted)
      ensures linkDialogPrinted
    {
      if linkDialogPrinted {
        return false;
      }
      linkDialogPrinted := true;
      prints := true;
    }
  }

  /** The first loop of `gc_mce_translation`. */
  method CollapseLoop(table: Assoc<TranslationValue>) returns (collapsed: Assoc<string>)
    ensures collapsed == CollapseTranslations(table)
  {
    collapsed := [];
    var k := 0;
    while k < |table|
      invariant 0 <= k <= |table|
      invariant collapsed + CollapseTranslations(table[k..]) == CollapseTranslations(table)
    {
      var v := FirstText(table[k].1);
      CollapseStep(table, k, collapsed);
      collapsed := collapsed + [(table[k].0, v)];
      k := k + 1;
    }
    assert table[k..] == [];
    assert collapsed + [] == collapsed;
  }

  lemma CollapseStep(table: Assoc<TranslationValue>, k: nat, done: Assoc<string>)
    requires k < |table|
    ensures done + CollapseTranslations(table[k..])
            == (done + [(table[k].0, FirstText(table[k].1))]) + CollapseTranslations(table[k + 1..])
  {
    var t := table[k..];
    assert t[0] == table[k] && t[1..] == table[k + 1..];
    var e, rest := [(table[k].0, FirstText(table[k].1))], CollapseTranslations(table[k + 1..]);
    assert CollapseTranslations(t) == e + rest;
    assert done + (e + rest) == (done + e) + rest;
  }

  /** The second loop of `gc_mce_translation`. */
  method DropLoop(filtered: Assoc<string>, decode: string -> string) returns (translations: Assoc<string>)
    requires UniqueKeys(filtered)
    ensures translations == DropUntranslated(filtered, decode)
  {
    translations := [];
    var k := 0;
    while k < |filtered|
      invariant 0 <= k <= |filtered|
      invariant UniqueKeys(filtered[k..])
      invariant translations + DropUntranslated(filtered[k..], decode) == DropUntranslated(filtered, decode)
    {
      TailUniqueKeys(filtered, k + 1);
      var (key, value) := filtered[k];
      DropStep(filtered, k, decode, translations);
      if key != value {
        translations := translations + [(key, Decoded(value, decode))];
      }
      k := k + 1;
    }
    assert filtered[k..] == [];
    assert translations + [] == translations;
  }

  lemma DropStep(filtered: Assoc<string>, k: nat, decode: string -> string, done: Assoc<string>)
    requires k < |filtered| && UniqueKeys(filtered[k..]) && UniqueKeys(filtered[k + 1..])
    ensures var e := if filtered[k].0 == filtered[k].1 then [] else [(filtered[k].0, Decoded(filtered[k].1, decode))];
            done + DropUntranslated(filtered[k..], decode) == (done + e) + DropUntranslated(filtered[k + 1..], decode)
  {
    var t := filtered[k..];
    assert t[0] == filtered[k] && t[1..] == filtered[k + 1..];
    var e := if filtered[k].0 == filtered[k].1 then [] else [(filtered[k].0, Decoded(filtered[k].1, decode))];
    var rest := DropUntranslated(filtered[k + 1..], decode);
    assert DropUntranslated(t, decode) == e + rest;
    assert done + (e + rest) == (done + e) + rest;
  }

  /** The cookie override and the clamp of a non-empty height. */
  method SettleHeight(h: int, editorId: string, tinymce: TinymceArg, sizeCookie: int) returns (height: int)
    requires h != 0
    ensures Some(height) == SettledHeight(Some(h), editorId, tinymce, sizeCookie)
  {
    height := h;
    if editorId == "content" && !AutoresizeOn(tinymce) {
      if sizeCookie != 0 {
        height := sizeCookie;
      }
    }
    if height < MinEditorHeight {
      height := MinEditorHeight;
    } else if height > MaxEditorHeight {
      height := MaxEditorHeight;
    }
  }

  /** A suffix of a PHP array has unique keys too. */
  lemma TailUniqueKeys<V>(t: Assoc<V>, k: nat)
    requires UniqueKeys(t) && k <= |t|
    ensures UniqueKeys(t[k..])
  {
    assert forall i :: 0 <= i < |t| - k ==> Keys(t[k..])[i] == Keys(t)[k + i];
  }
}
