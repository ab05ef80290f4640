/** The decision procedures, list transformations and serialisers of the
    script/style loader: reordering a handle list, the chunked
    `load-scripts.php`/`load-styles.php` query, the concatenation and
    compression flags, `<script>` attribute rendering, root-relative CSS
    URLs, the admin colour stylesheet source, the vendor package list, the
    polyfill loader script and the classic-block TinyMCE settings. The
    greedy inlining of small stylesheets is in module StyleInliner. */
module ScriptLoader {
  import opened Wrappers
  import opened Php
  import opened TinymceInit

  // ---------------------------------------------------------------------
  // gc_prototype_before_jquery

  /** Whether the list already loads prototype before jQuery (or lacks one
      of them), so that `gc_prototype_before_jquery` leaves it alone. */
  predicate PrototypeFirst(js: seq<string>) {
    "prototype" !in js || "jquery" !in js || FirstIndex(js, "prototype") < FirstIndex(js, "jquery")
  }

  /** Moves the first 'prototype' to just before the first 'jquery' when it
      comes after it; every other handle keeps its relative order. */
  method PrototypeBeforeJquery(js: seq<string>) returns (r: seq<string>)
    ensures PrototypeFirst(js) ==> r == js
    ensures !PrototypeFirst(js) ==>
              var p, j := FirstIndex(js, "prototype"), FirstIndex(js, "jquery");
              |r| == |js| && multiset(r) == multiset(js)
              && j + 1 < |r| && r[j] == "prototype" && r[j + 1] == "jquery"
              && RemoveAt(r, j) == RemoveAt(js, p)
    ensures PrototypeFirst(r)
  {
    if "prototype" !in js {
      return js;
    }
    var p := FirstIndex(js, "prototype");
    if "jquery" !in js {
      return js;
    }
    var j := FirstIndex(js, "jquery");
    if p < j {
      return js;
    }
    // unset( $js_array[ $prototype ] ), then array_splice( ..., $jquery, 0, 'prototype' )
    var without := RemoveAt(js, p);
    r := without[..j] + ["prototype"] + without[j..];
    MovePrototypeMultiset(js, p, j);
    MovePrototypeOrder(js, p, j);
  }

  /** Moving the prototype handle from `p` to `j` neither loses nor adds
      a handle. */
  lemma MovePrototypeMultiset(js: seq<string>, p: nat, j: nat)
    requires j < p < |js| && js[p] == "prototype"
    ensures var r := RemoveAt(js, p)[..j] + ["prototype"] + RemoveAt(js, p)[j..];
            |r| == |js| && multiset(r) == multiset(js) && RemoveAt(r, j) == RemoveAt(js, p)
  {
    var without := RemoveAt(js, p);
    var r := without[..j] + ["prototype"] + without[j..];
    InsertMultiset(without, j, "prototype");
    RemoveMultiset(js, p);
    assert r[..j] == without[..j] && r[j + 1..] == without[j..];
    assert RemoveAt(r, j) == without[..j] + without[j..];
    assert without[..j] + without[j..] == without;
  }

  /** Inserting `x` at `j` adds one `x` to the multiset. */
  lemma InsertMultiset(s: seq<string>, j: nat, x: string)
    requires j <= |s|
    ensures multiset(s[..j] + [x] + s[j..]) == multiset(s) + multiset{x}
  {
    assert s == s[..j] + s[j..];
  }

  /** Removing the element at `p` takes one of it out of the multiset. */
  lemma RemoveMultiset(s: seq<string>, p: nat)
    requires p < |s|
    ensures multiset(RemoveAt(s, p)) + multiset{s[p]} == multiset(s)
  {
    assert s == s[..p] + [s[p]] + s[p + 1..];
  }

  /** After the move, prototype sits just before jQuery and both are the
      first of their name. */
  lemma MovePrototypeOrder(js: seq<string>, p: nat, j: nat)
    requires "prototype" in js && "jquery" in js
    requires p == FirstIndex(js, "prototype") && j == FirstIndex(js, "jquery") && j < p
    ensures var r := RemoveAt(js, p)[..j] + ["prototype"] + RemoveAt(js, p)[j..];
            j + 1 < |r| && r[j] == "prototype" && r[j + 1] == "jquery"
            && FirstIndex(r, "prototype") == j && FirstIndex(r, "jquery") == j + 1
  {
    var without := RemoveAt(js, p);
    var r := without[..j] + ["prototype"] + without[j..];
    assert r[..j] == js[..j];
    assert r[j + 1] == js[j];
    FirstIndexAt(r, "prototype", j);
    FirstIndexAt(r, "jquery", j + 1);
  }

  // ---------------------------------------------------------------------
  // _print_scripts / _print_styles: the chunked load query

  const ChunkSize: nat := 128

  /** The characters `trim( $concat, ', ' )` strips. */
  const CommaSpace: set<char> := {',', ' '}

  /** `str_split( $s, 128 )` on a non-empty string. */
  function Chunks(s: string): (cs: seq<string>)
    requires s != []
    ensures |cs| >= 1
    ensures forall i :: 0 <= i < |cs| ==> 0 < |cs[i]| <= ChunkSize
    decreases |s|
  {
    if |s| <= ChunkSize then [s] else [s[..ChunkSize]] + Chunks(s[ChunkSize..])
  }

  function Concat(cs: seq<string>): string
    decreases |cs|
  {
    if cs == [] then "" else cs[0] + Concat(cs[1..])
  }

  /** The chunks put back together give the string. */
  lemma {:induction false} ChunksConcat(s: string)
    requires s != []
    ensures Concat(Chunks(s)) == s
    decreases |s|
  {
    if |s| > ChunkSize {
      ChunksConcat(s[ChunkSize..]);
      assert Chunks(s)[1..] == Chunks(s[ChunkSize..]);
      assert s == s[..ChunkSize] + s[ChunkSize..];
    }
  }

  /** Every chunk but the last is exactly 128 characters long. */
  lemma {:induction false} ChunksFull(s: string)
    requires s != []
    ensures forall i :: 0 <= i < |Chunks(s)| - 1 ==> |Chunks(s)[i]| == ChunkSize
    decreases |s|
  {
    if |s| > ChunkSize {
      ChunksFull(s[ChunkSize..]);
      assert Chunks(s)[1..] == Chunks(s[ChunkSize..]);
    }
  }

  /** One `&load%5Bchunk_{k}%5D={chunk}` parameter. */
  function ChunkParam(k: nat, chunk: string): string {
    "&load%5Bchunk_" + NatToString(k) + "%5D=" + chunk
  }

  /** The parameters for `cs`, numbered from `first` on, in order. */
  function ChunkParams(cs: seq<string>, first: nat): string
    decreases |cs|
  {
    if cs == [] then "" else ChunkParam(first, cs[0]) + ChunkParams(cs[1..], first + 1)
  }

  /** The accumulation loop over the chunks. */
  method LoadChunkParams(cs: seq<string>) returns (q: string)
    ensures q == ChunkParams(cs, 0)
  {
    q := "";
    var k := 0;
    while k < |cs|
      invariant 0 <= k <= |cs|
      invariant q + ChunkParams(cs[k..], k) == ChunkParams(cs, 0)
    {
      assert cs[k..][1..] == cs[k + 1..];
      q := q + ChunkParam(k, cs[k]);
      k := k + 1;
    }
    assert cs[k..] == [];
  }

  /** The `c=` value: 0, 1, or 'gzip' when ENFORCE_GZIP is on. */
  function ZipParam(compress: bool, enforceGzip: bool): (z: string)
    ensures z == "0" <==> !compress
    ensures z == "gzip" <==> compress && enforceGzip
    ensures compress && !enforceGzip ==> z == "1"
  {
    if !compress then "0" else if enforceGzip then "gzip" else "1"
  }

  /** The trimmed concatenated handle list, or `None` when PHP finds it
      falsy and no concatenated tag is printed. */
  function TrimmedConcat(concat: string): (r: Option<string>)
    ensures r.Some? ==> r.value != [] && r.value[0] !in CommaSpace && r.value[|r.value| - 1] !in CommaSpace
  {
    var t := Trim(concat, CommaSpace);
    if EmptyStr(t) then None else Some(t)
  }

  /** The site-relative `src` of the concatenated script tag printed by
      `_print_scripts`, or `None` when nothing is concatenated. */
  method ScriptsLoadSrc(concat: string, zip: string, ver: string) returns (src: Option<string>)
    ensures TrimmedConcat(concat).None? <==> src.None?
    ensures TrimmedConcat(concat).Some? ==>
              src == Some("/gc-admin/load-scripts.php?c=" + zip + ChunkParams(Chunks(TrimmedConcat(concat).value), 0) + "&ver=" + ver)
  {
    var t := TrimmedConcat(concat);
    if t.None? {
      return None;
    }
    var params := LoadChunkParams(Chunks(t.value));
    src := Some("/gc-admin/load-scripts.php?c=" + zip + params + "&ver=" + ver);
  }

  /** The site-relative `href` of the concatenated stylesheet link printed
      by `_print_styles`, or `None` when nothing is concatenated. */
  method StylesLoadHref(concat: string, zip: string, dir: string, ver: string) returns (href: Option<string>)
    ensures TrimmedConcat(concat).None? <==> href.None?
    ensures TrimmedConcat(concat).Some? ==>
              href == Some("/gc-admin/load-styles.php?c=" + zip + "&dir=" + dir
                           + ChunkParams(Chunks(TrimmedConcat(concat).value), 0) + "&ver=" + ver)
  {
    var t := TrimmedConcat(concat);
    if t.None? {
      return None;
    }
    var params := LoadChunkParams(Chunks(t.value));
    href := Some("/gc-admin/load-styles.php?c=" + zip + "&dir=" + dir + params + "&ver=" + ver);
  }

  // ---------------------------------------------------------------------
  // script_concat_settings

  /** What `script_concat_settings` reads from its surroundings: ini
      settings, the installer flag, the stored option, the optional
      constants and the request context. */
  datatype ConcatEnv = ConcatEnv(
    zlibOutputCompression: bool,
    outputHandlerIsGzip: bool,
    installing: bool,
    canCompressOption: bool,
    concatenateConst: Option<bool>,
    compressScriptsConst: Option<bool>,
    compressCssConst: Option<bool>,
    isAdmin: bool,
    didLoginInit: bool,
    scriptDebug: bool)

  predicate CompressedOutput(env: ConcatEnv) {
    env.zlibOutputCompression || env.outputHandlerIsGzip
  }

  predicate CanCompressScripts(env: ConcatEnv) {
    !env.installing && env.canCompressOption
  }

  /** The value `$concatenate_scripts` gets when it was unset. */
  function InitialConcatenate(env: ConcatEnv): (r: bool)
    ensures env.scriptDebug ==> !r
    ensures !env.isAdmin && !env.didLoginInit ==> !r
    ensures !env.scriptDebug && (env.isAdmin || env.didLoginInit) ==> r == env.concatenateConst.GetOr(true)
  {
    var c := env.concatenateConst.GetOr(true);
    if (!env.isAdmin && !env.didLoginInit) || env.scriptDebug then false else c
  }

  /** The value a compression flag gets when it was unset. */
  function InitialCompress(constant: Option<bool>, env: ConcatEnv): (r: bool)
    ensures !CanCompressScripts(env) || CompressedOutput(env) ==> !r
    ensures CanCompressScripts(env) && !CompressedOutput(env) ==> r == constant.GetOr(true)
  {
    var c := constant.GetOr(true);
    if c && (!CanCompressScripts(env) || CompressedOutput(env)) then false else c
  }

  /** The three request-wide globals; `None` is PHP's "not set". */
  class ConcatSettings {
    var concatenateScripts: Option<bool>
    var compressScripts: Option<bool>
    var compressCss: Option<bool>

    constructor ()
      ensures concatenateScripts.None? && compressScripts.None? && compressCss.None?
    {
      concatenateScripts, compressScripts, compressCss := None, None, None;
    }

    /** Fills in every flag that is not yet set; a set flag is never
        overwritten, so a second call changes nothing. */
    method Determine(env: ConcatEnv)
      modifies this
      ensures concatenateScripts == if old(concatenateScripts).Some? then old(concatenateScripts) else Some(InitialConcatenate(env))
      ensures compressScripts == if old(compressScripts).Some? then old(compressScripts) else Some(InitialCompress(env.compressScriptsConst, env))
      ensures compressCss == if old(compressCss).Some? then old(compressCss) else Some(InitialCompress(env.compressCssConst, env))
      ensures concatenateScripts.Some? && compressScripts.Some? && compressCss.Some?
    {
      if concatenateScripts.None? {
        var c := DecideConcatenate(env);
        concatenateScripts := Some(c);
      }
      if compressScripts.None? {
        var c := DecideCompress(env.compressScriptsConst, env);
        compressScripts := Some(c);
      }
      if compressCss.None? {
        var c := DecideCompress(env.compressCssConst, env);
        compressCss := Some(c);
      }
    }
  }

  /** The statements that settle `$concatenate_scripts`. */
  method DecideConcatenate(env: ConcatEnv) returns (c: bool)
    ensures c == InitialConcatenate(env)
  {
    c := env.concatenateConst.GetOr(true);
    if (!env.isAdmin && !env.didLoginInit) || env.scriptDebug {
      c := false;
    }
  }

  /** The statements that settle `$compress_scripts` and `$compress_css`. */
  method DecideCompress(constant: Option<bool>, env: ConcatEnv) returns (c: bool)
    ensures c == InitialCompress(constant, env)
  {
    c := constant.GetOr(true);
    if c && (!CanCompressScripts(env) || CompressedOutput(env)) {
      c := false;
    }
  }

  // ---------------------------------------------------------------------
  // gc_sanitize_script_attributes

  /** An attribute value: a boolean, or text. */
  datatype AttrValue = ABool(b: bool) | AText(s: string)

  /** The flag the source calls `$html5_script_support`: true on front-end
      pages of themes that do NOT declare html5 script support. When it is
      set, true booleans are written `name="name"`. */
  function QuoteBooleans(isAdmin: bool, themeSupportsHtml5Script: bool): bool {
    !isAdmin && !themeSupportsHtml5Script
  }

  /** What one attribute contributes; `esc` is `esc_attr`. */
  function AttributeText(name: string, v: AttrValue, quoteBooleans: bool, esc: string -> string): string {
    match v
    case ABool(b) =>
      if !b then ""
      else if quoteBooleans then " " + esc(name) + "=\"" + esc(name) + "\""
      else " " + esc(name)
    case AText(s) => " " + esc(name) + "=\"" + esc(s) + "\""
  }

  function AttributesString(attrs: Assoc<AttrValue>, quoteBooleans: bool, esc: string -> string): string
    decreases |attrs|
  {
    if attrs == [] then ""
    else AttributeText(attrs[0].0, attrs[0].1, quoteBooleans, esc) + AttributesString(attrs[1..], quoteBooleans, esc)
  }

  /** The attribute loop: one rendering per attribute, in input order. */
  method SanitizeScriptAttributes(attrs: Assoc<AttrValue>, quoteBooleans: bool, esc: string -> string) returns (s: string)
    ensures s == AttributesString(attrs, quoteBooleans, esc)
  {
    s := "";
    var k := 0;
    while k < |attrs|
      invariant 0 <= k <= |attrs|
      invariant s + AttributesString(attrs[k..], quoteBooleans, esc) == AttributesString(attrs, quoteBooleans, esc)
    {
      var text := AttributeText(attrs[k].0, attrs[k].1, quoteBooleans, esc);
      AttributesStep(attrs, k, quoteBooleans, esc, s);
      s := s + text;
      k := k + 1;
    }
    assert attrs[k..] == [];
    assert s + "" == s;
  }

  lemma AttributesStep(attrs: Assoc<AttrValue>, k: nat, quoteBooleans: bool, esc: string -> string, done: string)
    requires k < |attrs|
    ensures done + AttributesString(attrs[k..], quoteBooleans, esc)
            == (done + AttributeText(attrs[k].0, attrs[k].1, quoteBooleans, esc)) + AttributesString(attrs[k + 1..], quoteBooleans, esc)
  {
    var t := attrs[k..];
    assert t[0] == attrs[k] && t[1..] == attrs[k + 1..];
    var e, rest := AttributeText(attrs[k].0, attrs[k].1, quoteBooleans, esc), AttributesString(attrs[k + 1..], quoteBooleans, esc);
    assert AttributesString(t, quoteBooleans, esc) == e + rest;
    assert done + (e + rest) == (done + e) + rest;
  }

  /** Rendering distributes over concatenation, so attributes come out in
      input order. */
  lemma {:induction false} AttributesAppend(a: Assoc<AttrValue>, b: Assoc<AttrValue>, quoteBooleans: bool, esc: string -> string)
    ensures AttributesString(a + b, quoteBooleans, esc) == AttributesString(a, quoteBooleans, esc) + AttributesString(b, quoteBooleans, esc)
    decreases |a|
  {
    if a == [] {
      assert a + b == b;
    } else {
      assert (a + b)[1..] == a[1..] + b;
      AttributesAppend(a[1..], b, quoteBooleans, esc);
    }
  }

  /** A boolean-false attribute leaves no trace in the string. */
  lemma FalseAttributeOmitted(a: Assoc<AttrValue>, name: string, b: Assoc<AttrValue>, quoteBooleans: bool, esc: string -> string)
    ensures AttributesString(a + [(name, ABool(false))] + b, quoteBooleans, esc) == AttributesString(a + b, quoteBooleans, esc)
  {
    AttributesAppend(a + [(name, ABool(false))], b, quoteBooleans, esc);
    AttributesAppend(a, [(name, ABool(false))], quoteBooleans, esc);
    AttributesAppend(a, b, quoteBooleans, esc);
  }

  // ---------------------------------------------------------------------
  // _gc_normalize_relative_css_links (on already extracted matches)

  /** One `url(...)` match: the whole matched text and the captured URL. */
  datatype CssUrlMatch = CssUrlMatch(whole: string, url: string)

  /** URLs the normalisation leaves alone: absolute ('http…', '//…'),
      fragment identifiers and data URIs. */
  predicate KeptAsIs(url: string) {
    StartsWith(url, "http") || StartsWith(url, "//") || StartsWith(url, "#") || StartsWith(url, "data:")
  }

  /** The root-relative form of a stylesheet-relative URL; `dirname` and
      `makeRelative` (`gc_make_link_relative`) are not modelled. */
  function RootRelativeUrl(url: string, stylesheetUrl: string, dirname: string -> string, makeRelative: string -> string): string {
    makeRelative(ReplaceAll(dirname(stylesheetUrl) + "/" + url, "/./", "/"))
  }

  /** One iteration of the rewriting loop. */
  function NormalizeStep(css: string, m: CssUrlMatch, stylesheetUrl: string, dirname: string -> string, makeRelative: string -> string): string {
    if KeptAsIs(m.url) then css
    else ReplaceAll(css, m.whole, ReplaceAll(m.whole, m.url, RootRelativeUrl(m.url, stylesheetUrl, dirname, makeRelative)))
  }

  function NormalizedCss(css: string, ms: seq<CssUrlMatch>, stylesheetUrl: string, dirname: string -> string, makeRelative: string -> string): string
    decreases |ms|
  {
    if ms == [] then css
    else NormalizedCss(NormalizeStep(css, ms[0], stylesheetUrl, dirname, makeRelative), ms[1..], stylesheetUrl, dirname, makeRelative)
  }

  method NormalizeRelativeCssLinks(css: string, stylesheetUrl: string, ms: seq<CssUrlMatch>, dirname: string -> string, makeRelative: string -> string)
    returns (out: string)
    ensures out == NormalizedCss(css, ms, stylesheetUrl, dirname, makeRelative)
  {
    out := css;
    var k := 0;
    while k < |ms|
      invariant 0 <= k <= |ms|
      invariant NormalizedCss(out, ms[k..], stylesheetUrl, dirname, makeRelative) == NormalizedCss(css, ms, stylesheetUrl, dirname, makeRelative)
    {
      assert ms[k..][1..] == ms[k + 1..];
      var m := ms[k];
      if !KeptAsIs(m.url) {
        var relative := RootRelativeUrl(m.url, stylesheetUrl, dirname, makeRelative);
        out := ReplaceAll(out, m.whole, ReplaceAll(m.whole, m.url, relative));
      }
      k := k + 1;
    }
    assert ms[k..] == [];
  }

  /** A stylesheet whose URLs are all absolute, fragments or data URIs comes
      out unchanged. */
  lemma {:induction false} KeptUrlsLeaveCss(css: string, ms: seq<CssUrlMatch>, stylesheetUrl: string, dirname: string -> string, makeRelative: string -> string)
    requires forall i :: 0 <= i < |ms| ==> KeptAsIs(ms[i].url)
    ensures NormalizedCss(css, ms, stylesheetUrl, dirname, makeRelative) == css
    decreases |ms|
  {
    if ms != [] {
      KeptUrlsLeaveCss(css, ms[1..], stylesheetUrl, dirname, makeRelative);
    }
  }

  // ---------------------------------------------------------------------
  // gc_style_loader_src

  /** The source of an admin stylesheet: during installation a leading
      'gc-admin/' becomes './'; otherwise the 'colors' stylesheet has no
      source (`None` is PHP's `false`) and any other keeps its own. */
  function StyleLoaderSrc(src: string, handle: string, installing: bool): (r: Option<string>)
    ensures r.None? <==> !installing && handle == "colors"
    ensures installing && StartsWith(src, "gc-admin/") ==> r == Some("./" + src[9..])
    ensures r.Some? && !StartsWith(src, "gc-admin/") ==> r == Some(src)
    ensures !installing && r.Some? ==> r == Some(src)
  {
    if installing then
      (if StartsWith(src, "gc-admin/") then Some("./" + src[9..]) else Some(src))
    else if handle == "colors" then None
    else Some(src)
  }

  // ---------------------------------------------------------------------
  // gc_default_packages_vendor

  /** An entry of the vendor table: `handle => deps`, or a bare handle
      (an integer key in PHP). */
  datatype VendorEntry = WithDeps(handle: string, deps: seq<string>) | Bare(name: string)

  /** One `$scripts->add( $handle, $path, $deps, $version, 1 )` call. */
  datatype Registration = Registration(handle: string, path: string, deps: seq<string>, version: Option<string>)

  function EntryHandle(e: VendorEntry): string {
    match e
    case WithDeps(h, _) => h
    case Bare(h) => h
  }

  function EntryDeps(e: VendorEntry): seq<string> {
    match e
    case WithDeps(_, d) => d
    case Bare(_) => []
  }

  function VendorPath(handle: string, suffix: string): string {
    "/js/dist/vendor/" + handle + suffix + ".js"
  }

  /** The registration loop: a bare string becomes a handle with no
      dependencies; every entry is registered once, in table order. */
  method RegisterVendorScripts(vendors: seq<VendorEntry>, versions: map<string, string>, suffix: string)
    returns (regs: seq<Registration>)
    ensures |regs| == |vendors|
    ensures forall i :: 0 <= i < |vendors| ==>
              regs[i].handle == EntryHandle(vendors[i]) && regs[i].deps == EntryDeps(vendors[i])
              && regs[i].path == VendorPath(EntryHandle(vendors[i]), suffix)
              && regs[i].version == (if EntryHandle(vendors[i]) in versions then Some(versions[EntryHandle(vendors[i])]) else None)
  {
    regs := [];
    var k := 0;
    while k < |vendors|
      invariant 0 <= k <= |vendors|
      invariant |regs| == k
      invariant forall i :: 0 <= i < k ==>
                  regs[i].handle == EntryHandle(vendors[i]) && regs[i].deps == EntryDeps(vendors[i])
                  && regs[i].path == VendorPath(EntryHandle(vendors[i]), suffix)
                  && regs[i].version == (if EntryHandle(vendors[i]) in versions then Some(versions[EntryHandle(vendors[i])]) else None)
    {
      var handle: string;
      var deps: seq<string>;
      match vendors[k] {
        case WithDeps(h, d) =>
          handle, deps := h, d;
        case Bare(h) =>
          handle, deps := h, [];
      }
      var version := if handle in versions then Some(versions[handle]) else None;
      regs := regs + [Registration(handle, VendorPath(handle, suffix), deps, version)];
      k := k + 1;
    }
  }

  /** The vendor table. */
  const VendorScripts: seq<VendorEntry> := [
    WithDeps("react", ["gc-polyfill"]),
    WithDeps("react-dom", ["react"]),
    Bare("regenerator-runtime"),
    Bare("moment"),
    Bare("lodash"),
    Bare("gc-polyfill-fetch"),
    Bare("gc-polyfill-formdata"),
    Bare("gc-polyfill-node-contains"),
    Bare("gc-polyfill-url"),
    Bare("gc-polyfill-dom-rect"),
    Bare("gc-polyfill-element-closest"),
    Bare("gc-polyfill-object-fit"),
    WithDeps("gc-polyfill", ["regenerator-runtime"])
  ]

  /** The version table. */
  const VendorVersions: map<string, string> := map[
    "react" := "17.0.1",
    "react-dom" := "17.0.1",
    "regenerator-runtime" := "0.13.9",
    "moment" := "2.29.1",
    "lodash" := "4.17.19",
    "gc-polyfill-fetch" := "3.6.2",
    "gc-polyfill-formdata" := "4.0.0",
    "gc-polyfill-node-contains" := "3.105.0",
    "gc-polyfill-url" := "3.6.4",
    "gc-polyfill-dom-rect" := "3.104.0",
    "gc-polyfill-element-closest" := "2.0.2",
    "gc-polyfill-object-fit" := "2.3.5",
    "gc-polyfill" := "3.15.0"
  ]

  /** Every vendor handle has a version, and every dependency is itself a
      vendor handle. */
  lemma VendorTableComplete()
    ensures forall i :: 0 <= i < |VendorScripts| ==> EntryHandle(VendorScripts[i]) in VendorVersions
    ensures forall i, d :: 0 <= i < |VendorScripts| && d in EntryDeps(VendorScripts[i]) ==>
              exists j :: 0 <= j < |VendorScripts| && EntryHandle(VendorScripts[j]) == d
  {
    forall i, d | 0 <= i < |VendorScripts| && d in EntryDeps(VendorScripts[i])
      ensures exists j :: 0 <= j < |VendorScripts| && EntryHandle(VendorScripts[j]) == d
    {
      if i == 0 {
        assert EntryHandle(VendorScripts[12]) == d;
      } else if i == 1 {
        assert EntryHandle(VendorScripts[0]) == d;
      } else {
        assert i == 12;
        assert EntryHandle(VendorScripts[2]) == d;
      }
    }
  }

  // ---------------------------------------------------------------------
  // gc_get_script_polyfill

  /** The part of a registered script the polyfill loader reads. */
  datatype RegisteredScript = RegisteredScript(src: string, ver: string)

  /** `preg_match( '|^(https?:)?//|', $src )`. */
  predicate IsProtocolUrl(src: string) {
    StartsWith(src, "//") || StartsWith(src, "http://") || StartsWith(src, "https://")
  }

  /** The script URL before filtering: relative sources are prefixed with
      the base URL unless they already start with the content URL, and a
      non-empty version is added as a query argument (`addVer`). */
  function PolyfillUrl(s: RegisteredScript, baseUrl: string, contentUrl: string, addVer: (string, string) -> string): string {
    var src := if !IsProtocolUrl(s.src) && !(!EmptyStr(contentUrl) && StartsWith(s.src, contentUrl))
               then baseUrl + s.src else s.src;
    if EmptyStr(s.ver) then src else addVer(s.ver, src)
  }

  /** What the polyfill loader reads besides the tests: the registered
      scripts, the base and content URLs, `add_query_arg( 'ver', ... )`
      (`addVer`) and `esc_url( apply_filters( 'script_loader_src', ... ) )`
      (`filter`). */
  datatype PolyfillEnv = PolyfillEnv(
    registered: map<string, RegisteredScript>,
    baseUrl: string,
    contentUrl: string,
    addVer: (string, string) -> string,
    filter: (string, string) -> string)

  /** What one `test => handle` pair contributes: nothing for an
      unregistered handle or a source filtered to a falsy value. */
  function PolyfillEntry(test: string, handle: string, env: PolyfillEnv): string {
    if handle !in env.registered then ""
    else
      var src := env.filter(PolyfillUrl(env.registered[handle], env.baseUrl, env.contentUrl, env.addVer), handle);
      if EmptyStr(src) then ""
      else "( " + test + " ) || document.write( '<script src=\"" + src + "\"></scr' + 'ipt>' );"
  }

  function Polyfill(tests: seq<(string, string)>, env: PolyfillEnv): string
    decreases |tests|
  {
    if tests == [] then "" else PolyfillEntry(tests[0].0, tests[0].1, env) + Polyfill(tests[1..], env)
  }

  /** The loop over the tests: one loader line per registered handle whose
      source survives filtering, in test order. */
  method GetScriptPolyfill(tests: seq<(string, string)>, env: PolyfillEnv) returns (polyfill: string)
    ensures polyfill == Polyfill(tests, env)
  {
    polyfill := "";
    var k := 0;
    while k < |tests|
      invariant 0 <= k <= |tests|
      invariant polyfill + Polyfill(tests[k..], env) == Polyfill(tests, env)
    {
      var entry := PolyfillScript(tests[k].0, tests[k].1, env);
      PolyfillStep(tests, k, env, polyfill);
      polyfill := polyfill + entry;
      k := k + 1;
    }
    assert tests[k..] == [];
    assert polyfill + "" == polyfill;
  }

  lemma PolyfillStep(tests: seq<(string, string)>, k: nat, env: PolyfillEnv, done: string)
    requires k < |tests|
    ensures done + Polyfill(tests[k..], env) ==
      (done + PolyfillEntry(tests[k].0, tests[k].1, env)) + Polyfill(tests[k + 1..], env)
  {
    var t := tests[k..];
    assert t != [] && t[0] == tests[k] && t[1..] == tests[k + 1..];
    var e := PolyfillEntry(tests[k].0, tests[k].1, env);
    var r := Polyfill(tests[k + 1..], env);
    assert Polyfill(t, env) == e + r;
    assert done + (e + r) == (done + e) + r;
  }

  /** The body of the loop for one `test => handle` pair. */
  method PolyfillScript(test: string, handle: string, env: PolyfillEnv) returns (entry: string)
    ensures entry == PolyfillEntry(test, handle, env)
  {
    entry := "";
    if handle in env.registered {
      var src := env.filter(PolyfillUrl(env.registered[handle], env.baseUrl, env.contentUrl, env.addVer), handle);
      if !EmptyStr(src) {
        entry := "( " + test + " ) || document.write( '<script src=\"" + src + "\"></scr' + 'ipt>' );";
      }
    }
  }

  /** Tests whose handles are not registered produce no script at all. */
  lemma {:induction false} UnregisteredPolyfillsSkipped(tests: seq<(string, string)>, env: PolyfillEnv)
    requires forall i :: 0 <= i < |tests| ==> tests[i].1 !in env.registered
    ensures Polyfill(tests, env) == ""
    decreases |tests|
  {
    if tests != [] {
      UnregisteredPolyfillsSkipped(tests[1..], env);
    }
  }

  // ---------------------------------------------------------------------
  // gc_tinymce_inline_scripts: the classic-block settings

  /** The filtered inputs of the classic-block settings. */
  datatype ClassicBlockInput = ClassicBlockInput(
    plugins: seq<string>,
    toolbar1: seq<string>,
    toolbar2: seq<string>,
    toolbar3: seq<string>,
    toolbar4: seq<string>,
    externalPluginsJson: string,
    disableCaptions: bool,
    editorTinymce: Option<Settings>)   // `$editor_settings['tinymce']` when it is an array

  /** The settings array before the editor's own TinyMCE settings. */
  function ClassicBlockBase(input: ClassicBlockInput): Settings {
    [("plugins", SStr(Implode(Unique(input.plugins), ","))),
     ("toolbar1", SStr(Implode(input.toolbar1, ","))),
     ("toolbar2", SStr(Implode(input.toolbar2, ","))),
     ("toolbar3", SStr(Implode(input.toolbar3, ","))),
     ("toolbar4", SStr(Implode(input.toolbar4, ","))),
     ("external_plugins", SStr(input.externalPluginsJson)),
     ("classic_block_editor", SBool(true))]
    + (if input.disableCaptions then [("gceditimage_disable_captions", SBool(true))] else [])
  }

  /** The keys of the defaults, in order. */
  lemma ClassicBlockBaseKeys(input: ClassicBlockInput)
    ensures Keys(ClassicBlockBase(input)) ==
      ["plugins", "toolbar1", "toolbar2", "toolbar3", "toolbar4", "external_plugins", "classic_block_editor"]
      + (if input.disableCaptions then ["gceditimage_disable_captions"] else [])
  {
    var s := ClassicBlockBase(input);
    var ks := ["plugins", "toolbar1", "toolbar2", "toolbar3", "toolbar4", "external_plugins", "classic_block_editor"]
      + (if input.disableCaptions then ["gceditimage_disable_captions"] else []);
    assert |Keys(s)| == |ks|;
    forall i | 0 <= i < |ks|
      ensures Keys(s)[i] == ks[i]
    {
    }
  }

  /** The defaults mark the editor as the classic block, list each plugin
      once, and set the caption flag exactly when captions are disabled. */
  lemma ClassicBlockBaseSettings(input: ClassicBlockInput)
    ensures Get(ClassicBlockBase(input), "classic_block_editor") == Some(SBool(true))
    ensures Get(ClassicBlockBase(input), "plugins") == Some(SStr(Implode(Unique(input.plugins), ",")))
    ensures Get(ClassicBlockBase(input), "gceditimage_disable_captions").Some? <==> input.disableCaptions
    ensures NoDuplicates(Unique(input.plugins))
  {
    var s := ClassicBlockBase(input);
    GetFirst(s, "classic_block_editor", 6);
    GetFirst(s, "plugins", 0);
    if input.disableCaptions {
      CaptionFlagSet(input);
    } else {
      CaptionFlagUnset(input);
    }
  }

  lemma CaptionFlagSet(input: ClassicBlockInput)
    requires input.disableCaptions
    ensures Get(ClassicBlockBase(input), "gceditimage_disable_captions") == Some(SBool(true))
  {
    ClassicBlockBaseKeys(input);
    GetFirst(ClassicBlockBase(input), "gceditimage_disable_captions", 7);
  }

  lemma CaptionFlagUnset(input: ClassicBlockInput)
    requires !input.disableCaptions
    ensures Get(ClassicBlockBase(input), "gceditimage_disable_captions").None?
  {
    ClassicBlockBaseKeys(input);
    var flag := "gceditimage_disable_captions";
    assert flag !in Keys(ClassicBlockBase(input)) by {
      assert |flag| == 28;
    }
  }

  /** The settings as the code is written: the `array_merge` with the
      editor's TinyMCE settings is computed and discarded. */
  function ClassicBlockSettingsAsWritten(input: ClassicBlockInput): Settings {
    ClassicBlockBase(input)
  }

  /** The evidently intended settings: a non-empty TinyMCE settings array
      from the editor settings is merged over the defaults. */
  function ClassicBlockSettings(input: ClassicBlockInput): Settings {
    if input.editorTinymce.Some? && input.editorTinymce.value != [] then Merge(ClassicBlockBase(input), input.editorTinymce.value)
    else ClassicBlockBase(input)
  }

  /** As written, the editor's TinyMCE settings never reach the classic
      block: a `height` of 300 passed through `gc_editor_settings` is not in
      the serialised settings. */
  lemma ClassicBlockDropsEditorSettings()
    ensures var input := ClassicBlockInput([], [], [], [], [], "[]", false, Some([("height", SInt(300))]));
            Get(ClassicBlockSettingsAsWritten(input), "height").None?
            && Get(ClassicBlockSettings(input), "height") == Some(SInt(300))
  {
    var input := ClassicBlockInput([], [], [], [], [], "[]", false, Some([("height", SInt(300))]));
    var base := ClassicBlockBase(input);
    assert forall i :: 0 <= i < |base| ==> base[i].0 != "height";
    assert Keys([("height", SInt(300))]) == ["height"];
    MergeGet(base, [("height", SInt(300))], "height");
  }

  /** With the merge in place, every key of the editor's TinyMCE settings
      takes the editor's value and every other key keeps its default. */
  lemma ClassicBlockHonoursEditorSettings(input: ClassicBlockInput, k: string)
    requires input.editorTinymce.Some? && input.editorTinymce.value != []
    requires UniqueKeys(input.editorTinymce.value)
    ensures var custom := Get(input.editorTinymce.value, k);
            Get(ClassicBlockSettings(input), k) == if custom.Some? then custom else Get(ClassicBlockBase(input), k)
  {
    MergeGet(ClassicBlockBase(input), input.editorTinymce.value, k);
  }

  /** The classic-block script's settings object as the code is written:
      the settings, without the editor's own TinyMCE settings, pass the
      'tiny_mce_before_init' filter (`beforeInit`) and are serialised by a
      copy of the loop in `_GC_Editors::_parse_init`. */
  method ClassicBlockInitObject(input: ClassicBlockInput, beforeInit: Settings -> Settings) returns (obj: string)
    ensures obj == InitObject(beforeInit(ClassicBlockSettingsAsWritten(input)))
    ensures obj == InitObject(beforeInit(ClassicBlockBase(input)))
  {
    obj := ParseInit(beforeInit(ClassicBlockSettingsAsWritten(input)));
  }

  /** The same object with the merge in place: the filter and the loop see
      the editor's TinyMCE settings merged over the defaults. */
  method ClassicBlockInitObjectIntended(input: ClassicBlockInput, beforeInit: Settings -> Settings) returns (obj: string)
    ensures obj == InitObject(beforeInit(ClassicBlockSettings(input)))
    ensures input.editorTinymce.None? || input.editorTinymce.value == [] ==>
              obj == InitObject(beforeInit(ClassicBlockBase(input)))
  {
    var settings := ClassicBlockSettings(input);
    if input.editorTinymce.None? || input.editorTinymce.value == [] {
      assert settings == ClassicBlockBase(input);
    }
    obj := ParseInit(beforeInit(settings));
  }
}
