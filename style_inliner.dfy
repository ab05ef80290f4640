/** `gc_maybe_inline_styles`: stylesheets with a file on disk are inlined,
    smallest first, until the next one would take the total size past the
    limit. An inlined stylesheet loses its `src` and its CSS, with
    stylesheet-relative URLs made root-relative, goes first in its `after`
    list. */
module StyleInliner {
  import opened Wrappers
  import opened Php
  import opened ScriptLoader

  /** The part of a registered stylesheet the inliner reads and writes.
      `src == None` is PHP's `false`; an unset `after` is the empty list. */
  datatype Style = Style(src: Option<string>, after: seq<string>, path: Option<string>)

  /** One entry of the local `$styles` array. */
  datatype Candidate = Candidate(handle: string, src: Option<string>, path: string, size: nat)

  /** The file system and the uninterpreted helpers: `file_exists`,
      `filesize`, `file_get_contents`, the `url(...)` matches of
      `preg_match_all`, `dirname` and `gc_make_link_relative`. */
  datatype InlineEnv = InlineEnv(
    fileExists: string -> bool,
    size: string -> nat,
    contents: string -> string,
    urlMatches: string -> seq<CssUrlMatch>,
    dirname: string -> string,
    makeRelative: string -> string)

  const DefaultInlineLimit: int := 20000

  /** Whether a queued handle is a candidate: registered, with a truthy
      `path` that names an existing file. */
  predicate HasFile(registered: map<string, Style>, handle: string, env: InlineEnv) {
    handle in registered && registered[handle].path.Some?
    && !EmptyStr(registered[handle].path.value) && env.fileExists(registered[handle].path.value)
  }

  function CandidateFor(registered: map<string, Style>, handle: string, env: InlineEnv): Candidate
    requires HasFile(registered, handle, env)
  {
    var path := registered[handle].path.value;
    Candidate(handle, registered[handle].src, path, env.size(path))
  }

  /** The candidates in queue order: each is a queued handle with a file. */
  function Candidates(registered: map<string, Style>, queue: seq<string>, env: InlineEnv): (cs: seq<Candidate>)
    ensures |cs| <= |queue|
    ensures forall c :: c in cs ==> c.handle in queue && HasFile(registered, c.handle, env)
    decreases |queue|
  {
    if queue == [] then []
    else
      var rest := Candidates(registered, queue[1..], env);
      assert forall h :: h in queue[1..] ==> h in queue;
      if HasFile(registered, queue[0], env) then [CandidateFor(registered, queue[0], env)] + rest
      else rest
  }

  /** Every queued handle with a file is a candidate. */
  lemma {:induction false} CandidatesComplete(registered: map<string, Style>, queue: seq<string>, env: InlineEnv, h: string)
    requires h in queue && HasFile(registered, h, env)
    ensures exists c :: c in Candidates(registered, queue, env) && c.handle == h
    decreases |queue|
  {
    var rest := Candidates(registered, queue[1..], env);
    if queue[0] == h {
      assert CandidateFor(registered, h, env) in Candidates(registered, queue, env);
    } else {
      assert h in queue[1..];
      CandidatesComplete(registered, queue[1..], env, h);
      var c :| c in rest && c.handle == h;
      if HasFile(registered, queue[0], env) {
        assert Candidates(registered, queue, env) == [CandidateFor(registered, queue[0], env)] + rest;
      }
      assert c in Candidates(registered, queue, env);
    }
  }

  // ---------------------------------------------------------------------
  // Ordering by size

  predicate SortedBySize(cs: seq<Candidate>) {
    forall i, j :: 0 <= i < j < |cs| ==> cs[i].size <= cs[j].size
  }

  /** Inserts `c` before the first larger candidate. */
  function InsertBySize(c: Candidate, cs: seq<Candidate>): (r: seq<Candidate>)
    ensures multiset(r) == multiset(cs) + multiset{c}
    decreases |cs|
  {
    if cs == [] || c.size <= cs[0].size then [c] + cs
    else
      assert cs == [cs[0]] + cs[1..];
      [cs[0]] + InsertBySize(c, cs[1..])
  }

  lemma {:induction false} InsertSorted(c: Candidate, cs: seq<Candidate>)
    requires SortedBySize(cs)
    ensures SortedBySize(InsertBySize(c, cs))
    ensures forall x :: x in InsertBySize(c, cs) ==> x == c || x in cs
    decreases |cs|
  {
    if cs != [] && c.size > cs[0].size {
      InsertSorted(c, cs[1..]);
      var r := InsertBySize(c, cs);
      assert r == [cs[0]] + InsertBySize(c, cs[1..]);
      forall x | x in InsertBySize(c, cs[1..])
        ensures cs[0].size <= x.size
      {
        if x != c {
          assert x in cs[1..];
        }
      }
    }
  }

  /** The `usort` by size: ascending, the same candidates. */
  function SortBySize(cs: seq<Candidate>): (r: seq<Candidate>)
    ensures multiset(r) == multiset(cs)
    decreases |cs|
  {
    if cs == [] then []
    else
      assert cs == [cs[0]] + cs[1..];
      InsertBySize(cs[0], SortBySize(cs[1..]))
  }

  lemma {:induction false} SortBySizeSorted(cs: seq<Candidate>)
    ensures SortedBySize(SortBySize(cs))
    decreases |cs|
  {
    if cs != [] {
      SortBySizeSorted(cs[1..]);
      InsertSorted(cs[0], SortBySize(cs[1..]));
    }
  }

  // ---------------------------------------------------------------------
  // The inlining loop

  /** The CSS text that goes inline for a candidate. */
  function InlineCss(c: Candidate, env: InlineEnv): string {
    var css := env.contents(c.path);
    NormalizedCss(css, env.urlMatches(css), c.src.GetOr(""), env.dirname, env.makeRelative)
  }

  /** One inlined stylesheet: no `src`, its CSS first in `after`. */
  function InlineOne(registered: map<string, Style>, handle: string, css: string): (r: map<string, Style>)
    requires handle in registered
    ensures r.Keys == registered.Keys
  {
    registered[handle := registered[handle].(src := None, after := [css] + registered[handle].after)]
  }

  predicate AllRegistered(cs: seq<Candidate>, registered: map<string, Style>) {
    forall i :: 0 <= i < |cs| ==> cs[i].handle in registered
  }

  /** The registry after the loop over the sorted candidates `cs`, with
      `total` bytes already inlined. */
  function InlineFrom(registered: map<string, Style>, cs: seq<Candidate>, total: nat, limit: int, env: InlineEnv): (r: map<string, Style>)
    requires AllRegistered(cs, registered)
    ensures r.Keys == registered.Keys
    decreases |cs|
  {
    if cs == [] || total + cs[0].size > limit then registered
    else InlineFrom(InlineOne(registered, cs[0].handle, InlineCss(cs[0], env)), cs[1..], total + cs[0].size, limit, env)
  }

  /** The number of candidates the loop inlines before it breaks. */
  function InlinedCount(cs: seq<Candidate>, total: nat, limit: int): (n: nat)
    ensures n <= |cs|
    decreases |cs|
  {
    if cs == [] || total + cs[0].size > limit then 0 else 1 + InlinedCount(cs[1..], total + cs[0].size, limit)
  }

  function SizeSum(cs: seq<Candidate>): nat
    decreases |cs|
  {
    if cs == [] then 0 else cs[0].size + SizeSum(cs[1..])
  }

  /** What `gc_maybe_inline_styles` does to the registry. */
  function InlinedStyles(registered: map<string, Style>, queue: seq<string>, limit: int, env: InlineEnv): (r: map<string, Style>)
    ensures r.Keys == registered.Keys
  {
    var cs := SortBySize(Candidates(registered, queue, env));
    SortedAllRegistered(registered, queue, env);
    InlineFrom(registered, cs, 0, limit, env)
  }

  lemma SortedAllRegistered(registered: map<string, Style>, queue: seq<string>, env: InlineEnv)
    ensures AllRegistered(SortBySize(Candidates(registered, queue, env)), registered)
  {
    var cs := Candidates(registered, queue, env);
    var sorted := SortBySize(cs);
    forall i | 0 <= i < |sorted|
      ensures sorted[i].handle in registered
    {
      assert sorted[i] in multiset(cs);
    }
  }

  /** The inlined candidates fit in the limit; when the loop stops early,
      the next candidate would not have fit. */
  lemma {:induction false} InlineBudget(cs: seq<Candidate>, total: nat, limit: int)
    ensures total + SizeSum(cs[..InlinedCount(cs, total, limit)]) <= limit || InlinedCount(cs, total, limit) == 0
    ensures InlinedCount(cs, total, limit) < |cs| ==>
              total + SizeSum(cs[..InlinedCount(cs, total, limit) + 1]) > limit
    decreases |cs|
  {
    var n := InlinedCount(cs, total, limit);
    if cs != [] {
      if total + cs[0].size > limit {
        assert cs[..1] == [cs[0]];
        assert SizeSum(cs[..1]) == cs[0].size + SizeSum(cs[..1][1..]);
      } else {
        var t := total + cs[0].size;
        InlineBudget(cs[1..], t, limit);
        var m := InlinedCount(cs[1..], t, limit);
        assert n == 1 + m;
        assert cs[..n][1..] == cs[1..][..m];
        assert SizeSum(cs[..n]) == cs[0].size + SizeSum(cs[1..][..m]);
        if m == 0 {
          assert cs[1..][..0] == [];
        }
        if n < |cs| {
          assert cs[..n + 1][1..] == cs[1..][..m + 1];
          assert SizeSum(cs[..n + 1]) == cs[0].size + SizeSum(cs[1..][..m + 1]);
        }
      }
    }
  }

  /** When everything fits, everything is inlined. */
  lemma {:induction false} InlineAllWhenSmall(cs: seq<Candidate>, total: nat, limit: int)
    requires total + SizeSum(cs) <= limit
    ensures InlinedCount(cs, total, limit) == |cs|
    decreases |cs|
  {
    if cs != [] {
      InlineAllWhenSmall(cs[1..], total + cs[0].size, limit);
    }
  }

  /** Every stylesheet the loop reaches loses its `src`. */
  lemma {:induction false} InlinedLoseSrc(registered: map<string, Style>, cs: seq<Candidate>, total: nat, limit: int, env: InlineEnv, i: nat)
    requires AllRegistered(cs, registered)
    requires i < InlinedCount(cs, total, limit)
    ensures InlineFrom(registered, cs, total, limit, env)[cs[i].handle].src.None?
    decreases |cs|
  {
    var next := InlineOne(registered, cs[0].handle, InlineCss(cs[0], env));
    assert AllRegistered(cs[1..], next);
    if i == 0 {
      InlineKeepsSrcNone(next, cs[1..], total + cs[0].size, limit, env, cs[0].handle);
    } else {
      InlinedLoseSrc(next, cs[1..], total + cs[0].size, limit, env, i - 1);
    }
  }

  /** A stylesheet without `src` keeps having none. */
  lemma {:induction false} InlineKeepsSrcNone(registered: map<string, Style>, cs: seq<Candidate>, total: nat, limit: int, env: InlineEnv, h: string)
    requires AllRegistered(cs, registered)
    requires h in registered && registered[h].src.None?
    ensures InlineFrom(registered, cs, total, limit, env)[h].src.None?
    decreases |cs|
  {
    if cs != [] && total + cs[0].size <= limit {
      var next := InlineOne(registered, cs[0].handle, InlineCss(cs[0], env));
      assert AllRegistered(cs[1..], next);
      InlineKeepsSrcNone(next, cs[1..], total + cs[0].size, limit, env, h);
    }
  }

  /** A stylesheet the loop does not reach is left exactly as it was. */
  lemma {:induction false} NotInlinedUntouched(registered: map<string, Style>, cs: seq<Candidate>, total: nat, limit: int, env: InlineEnv, h: string)
    requires AllRegistered(cs, registered)
    requires h in registered
    requires forall i :: 0 <= i < InlinedCount(cs, total, limit) ==> cs[i].handle != h
    ensures InlineFrom(registered, cs, total, limit, env)[h] == registered[h]
    decreases |cs|
  {
    if cs != [] && total + cs[0].size <= limit {
      var next := InlineOne(registered, cs[0].handle, InlineCss(cs[0], env));
      assert AllRegistered(cs[1..], next);
      assert forall i :: 0 <= i < InlinedCount(cs[1..], total + cs[0].size, limit) ==> cs[1..][i].handle == cs[i + 1].handle;
      NotInlinedUntouched(next, cs[1..], total + cs[0].size, limit, env, h);
    }
  }

  /** A stylesheet reached exactly once has its CSS put in front of its
      previous `after` list. */
  lemma {:induction false} InlinedOncePrepends(registered: map<string, Style>, cs: seq<Candidate>, total: nat, limit: int, env: InlineEnv, i: nat)
    requires AllRegistered(cs, registered)
    requires i < InlinedCount(cs, total, limit)
    requires forall j :: 0 <= j < InlinedCount(cs, total, limit) && j != i ==> cs[j].handle != cs[i].handle
    ensures InlineFrom(registered, cs, total, limit, env)[cs[i].handle].after
            == [InlineCss(cs[i], env)] + registered[cs[i].handle].after
    decreases |cs|
  {
    var next := InlineOne(registered, cs[0].handle, InlineCss(cs[0], env));
    assert AllRegistered(cs[1..], next);
    var m := InlinedCount(cs[1..], total + cs[0].size, limit);
    if i == 0 {
      NotInlinedUntouched(next, cs[1..], total + cs[0].size, limit, env, cs[0].handle);
    } else {
      assert cs[0].handle != cs[i].handle;
      assert forall j :: 0 <= j < m && j != i - 1 ==> cs[1..][j].handle != cs[1..][i - 1].handle by {
        forall j | 0 <= j < m && j != i - 1
          ensures cs[1..][j].handle != cs[1..][i - 1].handle
        {
          assert cs[1..][j] == cs[j + 1];
        }
      }
      InlinedOncePrepends(next, cs[1..], total + cs[0].size, limit, env, i - 1);
    }
  }

  /** The registered stylesheets and the queue, as fields of `$gc_styles`. */
  class StyleRegistry {
    var registered: map<string, Style>
    var queue: seq<string>

    constructor (registered: map<string, Style>, queue: seq<string>)
      ensures this.registered == registered && this.queue == queue
    {
      this.registered := registered;
      this.queue := queue;
    }

    /** Inlines stylesheets as described above; `limit` is the filtered
        `styles_inline_size_limit` (20000 by default). */
    method MaybeInlineStyles(limit: int, env: InlineEnv)
      modifies this
      ensures queue == old(queue)
      ensures registered == InlinedStyles(old(registered), old(queue), limit, env)
    {
      var styles := CollectCandidates(env);
      if styles == [] {
        return;
      }
      styles := SortBySize(styles);
      SortedAllRegistered(registered, queue, env);
      InlineSorted(styles, limit, env);
    }

    /** The `$styles` array, in queue order. */
    method CollectCandidates(env: InlineEnv) returns (styles: seq<Candidate>)
      ensures styles == Candidates(registered, queue, env)
    {
      styles := [];
      var k := 0;
      while k < |queue|
        invariant 0 <= k <= |queue|
        invariant styles + Candidates(registered, queue[k..], env) == Candidates(registered, queue, env)
      {
        assert queue[k..][1..] == queue[k + 1..];
        var handle := queue[k];
        ghost var rest := Candidates(registered, queue[k + 1..], env);
        if HasFile(registered, handle, env) {
          var path := registered[handle].path.value;
          var c := Candidate(handle, registered[handle].src, path, env.size(path));
          assert Candidates(registered, queue[k..], env) == [c] + rest;
          assert styles + ([c] + rest) == (styles + [c]) + rest;
          styles := styles + [c];
        } else {
          assert Candidates(registered, queue[k..], env) == rest;
        }
        k := k + 1;
      }
      assert queue[k..] == [];
      assert styles + [] == styles;
    }

    /** The loop over the sorted candidates, which breaks at the first one
        that does not fit. */
    method InlineSorted(styles: seq<Candidate>, limit: int, env: InlineEnv)
      requires AllRegistered(styles, registered)
      modifies this
      ensures queue == old(queue)
      ensures registered == InlineFrom(old(registered), styles, 0, limit, env)
    {
      var total: nat := 0;
      var k := 0;
      while k < |styles|
        invariant 0 <= k <= |styles|
        invariant queue == old(queue)
        invariant AllRegistered(styles[k..], registered)
        invariant InlineFrom(registered, styles[k..], total, limit, env) == InlineFrom(old(registered), styles, 0, limit, env)
      {
        assert styles[k..][1..] == styles[k + 1..];
        var style := styles[k];
        if total + style.size > limit {
          break;
        }
        var css := env.contents(style.path);
        css := NormalizeRelativeCssLinks(css, style.src.GetOr(""), env.urlMatches(css), env.dirname, env.makeRelative);
        var entry := registered[style.handle];
        registered := registered[style.handle := entry.(src := None, after := [css] + entry.after)];
        total := total + style.size;
        k := k + 1;
      }
    }
  }
}
