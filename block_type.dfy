/** A registered block type (`GC_Block_Type`): its properties, set from the
    registration arguments, and the attribute preparation that precedes a
    dynamic render. The JSON-schema validator, the registration filter and
    the render callback are parameters. */
module BlockType {
  import opened Wrappers
  import opened Php

  /** A PHP value as block registration uses it. A callback is named by
      `VCallable`; only it is callable. */
  datatype Value =
    | VNull
    | VBool(b: bool)
    | VInt(i: int)
    | VStr(s: string)
    | VArray(entries: Assoc<Value>)
    | VCallable(callback: string)

  /** `isset()` of a looked-up value: present and not null. */
  predicate IsSet(v: Option<Value>) {
    v.Some? && !v.value.VNull?
  }

  /** The declared properties and their initial values. */
  const DeclaredProps: map<string, Value> := map[
    "api_version" := VInt(1), "name" := VNull, "title" := VStr(""), "category" := VNull,
    "parent" := VNull, "icon" := VNull, "description" := VStr(""), "keywords" := VArray([]),
    "textdomain" := VNull, "styles" := VArray([]), "variations" := VArray([]), "supports" := VNull,
    "example" := VNull, "render_callback" := VNull, "attributes" := VNull,
    "uses_context" := VArray([]), "provides_context" := VNull, "editor_script" := VNull,
    "script" := VNull, "view_script" := VNull, "editor_style" := VNull, "style" := VNull
  ]

  /** `rest_validate_value_from_schema( $value, $schema, $name )` succeeds. */
  type Validator = (Value, Value, string) -> bool

  // ---------------------------------------------------------------------
  // prepare_attributes_for_render

  /** The attribute `k` is declared: `isset( $this->attributes[ $k ] )`. */
  predicate Declared(schema: Assoc<Value>, k: string) {
    IsSet(Get(schema, k))
  }

  /** `$schema['default']`, when set. */
  function DefaultOf(schema: Value): (d: Option<Value>)
    ensures d.Some? ==> !d.value.VNull?
  {
    if schema.VArray? && IsSet(Get(schema.entries, "default")) then Get(schema.entries, "default") else None
  }

  /** The first loop's test: an undeclared attribute, or a declared one
      whose value the schema accepts, stays. */
  function Stays(schema: Assoc<Value>, valid: Validator): ((string, Value)) -> bool {
    (e: (string, Value)) => !Declared(schema, e.0) || valid(e.1, Get(schema, e.0).value, e.0)
  }

  /** `array_diff_key( $a, $b )`: the pairs of `a` whose key `b` lacks. */
  function DiffKey(a: Assoc<Value>, b: Assoc<Value>): Assoc<Value> {
    Filter(a, (e: (string, Value)) => e.0 !in Keys(b))
  }

  /** The second loop: each missing attribute with a default gets it. */
  function FillDefaults(attrs: Assoc<Value>, missing: Assoc<Value>): Assoc<Value>
    decreases |missing|
  {
    if missing == [] then attrs
    else
      var d := DefaultOf(missing[0].1);
      FillDefaults(if d.Some? then Put(attrs, missing[0].0, d.value) else attrs, missing[1..])
  }

  /** The prepared attributes for the schema property `attributes`. */
  function Prepared(attrs: Assoc<Value>, attributes: Value, valid: Validator): Assoc<Value> {
    if !attributes.VArray? then attrs
    else
      var kept := Filter(attrs, Stays(attributes.entries, valid));
      FillDefaults(kept, DiffKey(attributes.entries, kept))
  }

  lemma {:induction false} FillDefaultsGet(attrs: Assoc<Value>, missing: Assoc<Value>, k: string)
    requires UniqueKeys(missing)
    ensures Get(FillDefaults(attrs, missing), k) ==
      if Get(missing, k).Some? && DefaultOf(Get(missing, k).value).Some? then DefaultOf(Get(missing, k).value)
      else Get(attrs, k)
    decreases |missing|
  {
    if missing != [] {
      var d := DefaultOf(missing[0].1);
      var next := if d.Some? then Put(attrs, missing[0].0, d.value) else attrs;
      assert Keys(missing) == [missing[0].0] + Keys(missing[1..]);
      NoDuplicatesTail(Keys(missing));
      FillDefaultsGet(next, missing[1..], k);
      if d.Some? {
        PutGet(attrs, missing[0].0, d.value, k);
      }
    }
  }

  /** What preparation does to each attribute name `k`: a supplied value
      stays unless its declaration rejects it; a rejected or missing
      declared attribute takes its schema default, if any; nothing else
      appears. */
  lemma PreparedGet(attrs: Assoc<Value>, schema: Assoc<Value>, valid: Validator, k: string)
    requires UniqueKeys(attrs) && UniqueKeys(schema)
    ensures Get(Prepared(attrs, VArray(schema), valid), k) ==
      if Get(attrs, k).Some? && (!Declared(schema, k) || valid(Get(attrs, k).value, Get(schema, k).value, k))
      then Get(attrs, k)
      else if Get(schema, k).Some? then DefaultOf(Get(schema, k).value)
      else None
  {
    var kept := Filter(attrs, Stays(schema, valid));
    var missing := DiffKey(schema, kept);
    var notKept := (e: (string, Value)) => e.0 !in Keys(kept);
    FilterGet(attrs, Stays(schema, valid), k);
    FilterKeys(schema, notKept);
    FilterGet(schema, notKept, k);
    FillDefaultsGet(kept, missing, k);
  }

  /** Every declared attribute with a default is present after preparation,
      and a supplied value the schema accepts is never replaced by it. */
  lemma DefaultsPresent(attrs: Assoc<Value>, schema: Assoc<Value>, valid: Validator, k: string)
    requires UniqueKeys(attrs) && UniqueKeys(schema)
    requires Get(schema, k).Some? && DefaultOf(Get(schema, k).value).Some?
    ensures Get(Prepared(attrs, VArray(schema), valid), k).Some?
    ensures Get(attrs, k).Some? && valid(Get(attrs, k).value, Get(schema, k).value, k) ==>
      Get(Prepared(attrs, VArray(schema), valid), k) == Get(attrs, k)
  {
    PreparedGet(attrs, schema, valid, k);
  }

  // ---------------------------------------------------------------------
  // set_props

  /** `gc_parse_args( $args, array( 'render_callback' => null ) )` with the
      block name written over `name`. */
  function PropsArgs(args: Assoc<Value>, name: Value): Assoc<Value> {
    Put(Merge([("render_callback", VNull)], args), "name", name)
  }

  /** The property loop: every argument becomes a property, in order. */
  function Assign(props: map<string, Value>, args: Assoc<Value>): map<string, Value>
    decreases |args|
  {
    if args == [] then props else Assign(props[args[0].0 := args[0].1], args[1..])
  }

  /** After the loop, each argument's property holds the argument and every
      other property is as before. */
  lemma {:induction false} AssignGet(props: map<string, Value>, args: Assoc<Value>, k: string)
    requires UniqueKeys(args)
    ensures Get(args, k).Some? ==> k in Assign(props, args) && Assign(props, args)[k] == Get(args, k).value
    ensures Get(args, k).None? ==> (k in Assign(props, args) <==> k in props)
    ensures Get(args, k).None? && k in props ==> Assign(props, args)[k] == props[k]
    decreases |args|
  {
    if args != [] {
      assert Keys(args) == [args[0].0] + Keys(args[1..]);
      NoDuplicatesTail(Keys(args));
      AssignGet(props[args[0].0 := args[0].1], args[1..], k);
    }
  }

  /** With the filter leaving the arguments alone, `set_props` sets `name`
      to the block's name, `render_callback` to the given callback or null,
      and every other argument as given. */
  lemma SetPropsUnfiltered(props: map<string, Value>, args: Assoc<Value>, name: Value, k: string)
    requires UniqueKeys(args)
    ensures "name" in Assign(props, PropsArgs(args, name)) && Assign(props, PropsArgs(args, name))["name"] == name
    ensures "render_callback" in Assign(props, PropsArgs(args, name))
    ensures Assign(props, PropsArgs(args, name))["render_callback"] ==
      if Get(args, "render_callback").Some? then Get(args, "render_callback").value else VNull
    ensures k != "name" && Get(args, k).Some? ==>
      k in Assign(props, PropsArgs(args, name)) && Assign(props, PropsArgs(args, name))[k] == Get(args, k).value
  {
    var merged := Merge([("render_callback", VNull)], args);
    var pa := PropsArgs(args, name);
    MergeUniqueKeys([("render_callback", VNull)], args);
    PutUniqueKeys(merged, "name", name);
    PutGet(merged, "name", name, "name");
    AssignGet(props, pa, "name");
    PutGet(merged, "name", name, "render_callback");
    MergeGet([("render_callback", VNull)], args, "render_callback");
    AssignGet(props, pa, "render_callback");
    PutGet(merged, "name", name, k);
    MergeGet([("render_callback", VNull)], args, k);
    AssignGet(props, pa, k);
  }

  // ---------------------------------------------------------------------
  // The block type object

  class BlockType {
    /** The object's properties, declared and dynamic. */
    var props: map<string, Value>

    /** `$this->$k`; an unknown property reads as null. */
    function Prop(k: string): Value
      reads this
    {
      if k in props then props[k] else VNull
    }

    /** `new GC_Block_Type( $block_type, $args )`: the name is set before
        the arguments are applied. */
    constructor(blockType: string, args: Assoc<Value>, filter: (Assoc<Value>, Value) -> Assoc<Value>)
      ensures props == Assign(DeclaredProps["name" := VStr(blockType)],
                              filter(PropsArgs(args, VStr(blockType)), VStr(blockType)))
    {
      props := DeclaredProps["name" := VStr(blockType)];
      new;
      SetProps(args, filter);
    }

    /** `set_props`: the arguments, defaulted and named, then filtered, are
        copied onto the object one by one. */
    method SetProps(args: Assoc<Value>, filter: (Assoc<Value>, Value) -> Assoc<Value>)
      modifies this
      ensures props == Assign(old(props), filter(PropsArgs(args, old(Prop("name"))), old(Prop("name"))))
    {
      var name := if "name" in props then props["name"] else VNull;
      var all := filter(PropsArgs(args, name), name);
      ghost var start := props;
      var k := 0;
      while k < |all|
        invariant 0 <= k <= |all|
        invariant Assign(props, all[k..]) == Assign(start, all)
      {
        assert all[k..][1..] == all[k + 1..];
        props := props[all[k].0 := all[k].1];
        k := k + 1;
      }
      assert all[k..] == [];
    }

    /** `is_dynamic`: the render callback is callable. */
    predicate IsDynamic()
      reads this
    {
      Prop("render_callback").VCallable?
    }

    /** `get_attributes`: the schema when it is an array, else empty. */
    function GetAttributes(): (r: Assoc<Value>)
      reads this
      ensures Prop("attributes").VArray? ==> r == Prop("attributes").entries
      ensures !Prop("attributes").VArray? ==> r == []
    {
      if Prop("attributes").VArray? then Prop("attributes").entries else []
    }

    /** `prepare_attributes_for_render`, with its two loops. The schema
        property is null or an array (PHP rejects anything else in
        `array_diff_key`). */
    method PrepareAttributesForRender(attributes: Assoc<Value>, valid: Validator) returns (r: Assoc<Value>)
      requires Prop("attributes").VNull? || Prop("attributes").VArray?
      ensures Prop("attributes").VNull? ==> r == attributes
      ensures r == Prepared(attributes, Prop("attributes"), valid)
    {
      var attrs := Prop("attributes");
      if attrs.VNull? {
        return attributes;
      }
      var schema := attrs.entries;
      r := KeepStaying(attributes, schema, valid);
      var missing := DiffKey(schema, r);
      ghost var kept := r;
      var k := 0;
      while k < |missing|
        invariant 0 <= k <= |missing|
        invariant FillDefaults(r, missing[k..]) == FillDefaults(kept, missing)
      {
        assert missing[k..][1..] == missing[k + 1..];
        var d := DefaultOf(missing[k].1);
        if d.Some? {
          r := Put(r, missing[k].0, d.value);
        }
        k := k + 1;
      }
      assert missing[k..] == [];
    }

    /** `render`: a block type that is not dynamic renders as ""; a dynamic
        one hands the prepared attributes and the content to its callback. */
    method Render(attributes: Assoc<Value>, content: string, valid: Validator,
                  invoke: (string, Assoc<Value>, string) -> string) returns (out: string)
      requires IsDynamic() ==> Prop("attributes").VNull? || Prop("attributes").VArray?
      ensures !IsDynamic() ==> out == ""
      ensures IsDynamic() ==>
        out == invoke(Prop("render_callback").callback, Prepared(attributes, Prop("attributes"), valid), content)
    {
      if !IsDynamic() {
        return "";
      }
      var prepared := PrepareAttributesForRender(attributes, valid);
      out := invoke(Prop("render_callback").callback, prepared, content);
    }
  }

  /** The first loop: every attribute its declaration rejects is unset. */
  method KeepStaying(attributes: Assoc<Value>, schema: Assoc<Value>, valid: Validator) returns (kept: Assoc<Value>)
    ensures kept == Filter(attributes, Stays(schema, valid))
  {
    kept := [];
    var k := 0;
    while k < |attributes|
      invariant 0 <= k <= |attributes|
      invariant kept + Filter(attributes[k..], Stays(schema, valid)) == Filter(attributes, Stays(schema, valid))
    {
      var name, value := attributes[k].0, attributes[k].1;
      FilterStep(attributes, k, Stays(schema, valid), kept);
      if !Declared(schema, name) || valid(value, Get(schema, name).value, name) {
        kept := kept + [attributes[k]];
      } else {
        assert kept + [] == kept;
      }
      k := k + 1;
    }
    assert attributes[k..] == [];
    assert kept + [] == kept;
  }
}
