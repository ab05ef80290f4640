/** The "by hand" translation of a TinyMCE settings array into a JavaScript
    object literal. The same loop appears in `_GC_Editors::_parse_init` and,
    copied, in the classic-block script of `gc_tinymce_inline_scripts`; both
    are proved against `InitObject` below. */
module TinymceInit {
  import opened Php

  /** A settings value: booleans, strings and integers are what the
      settings arrays hold. */
  datatype SettingValue = SBool(b: bool) | SStr(s: string) | SInt(i: int)

  type Settings = Assoc<SettingValue>

  /** PHP's `empty()` on a settings value. */
  predicate Falsy(v: SettingValue) {
    match v
    case SBool(b) => !b
    case SStr(s) => EmptyStr(s)
    case SInt(i) => i == 0
  }

  /** The characters `trim( $options, ' ,' )` strips. */
  const SpaceComma: set<char> := {' ', ','}

  /** `preg_match( '/^\(?function ?\(/', $value )`. */
  predicate StartsWithFunction(s: string) {
    StartsWith(s, "function(") || StartsWith(s, "function (")
    || StartsWith(s, "(function(") || StartsWith(s, "(function (")
  }

  /** A non-empty string the serialiser emits without quotes: wrapped in
      braces or brackets, or a function expression. */
  predicate IsRawJs(s: string) {
    !EmptyStr(s) &&
    ((s[0] == '{' && s[|s| - 1] == '}') || (s[0] == '[' && s[|s| - 1] == ']') || StartsWithFunction(s))
  }

  /** PHP's string conversion of a non-boolean value. */
  function ValueText(v: SettingValue): string {
    match v
    case SBool(b) => if b then "1" else ""
    case SStr(s) => s
    case SInt(i) => IntToString(i)
  }

  /** The text one `key => value` pair contributes, trailing comma included. */
  function EntryText(key: string, v: SettingValue): (t: string)
    ensures v.SBool? ==> t == key + ":" + (if v.b then "true" else "false") + ","
    ensures v.SStr? && IsRawJs(v.s) ==> t == key + ":" + v.s + ","
    ensures !v.SBool? && !(v.SStr? && IsRawJs(v.s)) ==> t == key + ":\"" + ValueText(v) + "\","
  {
    match v
    case SBool(b) => key + ":" + (if b then "true" else "false") + ","
    case SStr(s) => if IsRawJs(s) then key + ":" + s + "," else key + ":\"" + s + "\","
    case SInt(i) => key + ":\"" + IntToString(i) + "\","
  }

  /** The accumulated `$options` string, entry by entry in array order. */
  function Body(init: Settings): string
    decreases |init|
  {
    if init == [] then "" else EntryText(init[0].0, init[0].1) + Body(init[1..])
  }

  /** The returned object literal. */
  function InitObject(init: Settings): string {
    "{" + Trim(Body(init), SpaceComma) + "}"
  }

  /** The body of a concatenation is the concatenation of the bodies: every
      entry is rendered on its own, in array order. */
  lemma {:induction false} BodyAppend(a: Settings, b: Settings)
    ensures Body(a + b) == Body(a) + Body(b)
    decreases |a|
  {
    if a == [] {
      assert a + b == b;
    } else {
      assert (a + b)[1..] == a[1..] + b;
      BodyAppend(a[1..], b);
    }
  }

  /** Trimming the body of one entry drops exactly its trailing comma when
      the text before it neither starts nor ends with a space or comma. */
  lemma TrimEntry(text: string)
    requires text != [] && text[0] !in SpaceComma && text[|text| - 1] !in SpaceComma
    ensures Trim(text + ",", SpaceComma) == text
  {
    var t := text + ",";
    assert TrimLeft(t, SpaceComma) == t;
    assert t[..|t| - 1] == text;
    assert TrimRight(t, SpaceComma) == TrimRight(text, SpaceComma);
  }

  /** A one-entry array whose entry text is `text` plus the comma. */
  lemma SingleEntry(key: string, v: SettingValue, text: string)
    requires EntryText(key, v) == text + ","
    requires text != [] && text[0] !in SpaceComma && text[|text| - 1] !in SpaceComma
    ensures InitObject([(key, v)]) == "{" + text + "}"
  {
    var init := [(key, v)];
    assert init[1..] == [];
    assert Body(init) == (text + ",") + "";
    assert (text + ",") + "" == text + ",";
    TrimEntry(text);
    assert InitObject(init) == "{" + Trim(text + ",", SpaceComma) + "}";
  }

  /** A single boolean setting whose key starts with neither a space nor a
      comma is rendered as `{key:true}` / `{key:false}`: unquoted, with the
      trailing comma trimmed. */
  lemma SingleBoolean(key: string, b: bool)
    requires key != [] && key[0] !in SpaceComma
    ensures InitObject([(key, SBool(b))]) == "{" + key + ":" + (if b then "true" else "false") + "}"
  {
    var word := if b then "true" else "false";
    var text := key + ":" + word;
    assert text[0] == key[0];
    assert text[|text| - 1] == 'e' by {
      assert text[|text| - 1] == word[|word| - 1];
    }
    SingleEntry(key, SBool(b), text);
    assert "{" + text + "}" == "{" + key + ":" + word + "}";
  }

  /** A single string setting that is not raw JavaScript is double-quoted. */
  lemma SingleQuoted(key: string, s: string)
    requires key != [] && key[0] !in SpaceComma
    requires !IsRawJs(s)
    ensures InitObject([(key, SStr(s))]) == "{" + key + ":\"" + s + "\"}"
  {
    var text := key + ":\"" + s + "\"";
    assert text[0] == key[0];
    assert text[|text| - 1] == '"';
    SingleEntry(key, SStr(s), text);
    assert "{" + text + "}" == "{" + key + ":\"" + s + "\"}";
  }

  /** The serialising loop itself: booleans bare, raw JavaScript bare,
      everything else double-quoted; the trailing separator is trimmed and
      the whole wrapped in braces. */
  method ParseInit(init: Settings) returns (obj: string)
    ensures obj == InitObject(init)
  {
    var options := "";
    var k := 0;
    while k < |init|
      invariant 0 <= k <= |init|
      invariant options + Body(init[k..]) == Body(init)
    {
      var key, value := init[k].0, init[k].1;
      var entry := EntryText(key, value);
      BodyStep(init, k, options);
      options := options + entry;
      k := k + 1;
    }
    assert init[k..] == [];
    assert options + "" == options;
    assert options == Body(init);
    obj := "{" + Trim(options, SpaceComma) + "}";
  }

  lemma BodyStep(init: Settings, k: nat, done: string)
    requires k < |init|
    ensures done + Body(init[k..]) == (done + EntryText(init[k].0, init[k].1)) + Body(init[k + 1..])
  {
    var t := init[k..];
    assert t[0] == init[k] && t[1..] == init[k + 1..];
    var e, rest := EntryText(init[k].0, init[k].1), Body(init[k + 1..]);
    assert Body(t) == e + rest;
    assert done + (e + rest) == (done + e) + rest;
  }
}
