/** The PHP built-ins the modelled code leans on, stated once: `empty()` on
    strings, ASCII `strtolower`, `trim`, `strpos`/`stripos`, `str_replace`,
    `explode`/`implode`, `array_unique`, decimal rendering of integers, and
    ordered string-keyed arrays with `array_merge`. */
module Php {
  import opened Wrappers

  /** `empty()` on a string: true for "" and for "0". */
  predicate EmptyStr(s: string) {
    s == "" || s == "0"
  }

  // ---------------------------------------------------------------------
  // Case mapping (ASCII only, as PHP 8 does for strtolower)

  function LowerChar(c: char): char {
    if 'A' <= c <= 'Z' then (c as int + 32) as char else c
  }

  predicate IsLower(s: string) {
    forall c :: c in s ==> LowerChar(c) == c
  }

  function ToLower(s: string): (r: string)
    ensures IsLower(r)
    ensures |r| == |s|
    ensures forall i :: 0 <= i < |s| ==> r[i] == LowerChar(s[i])
  {
    seq(|s|, i requires 0 <= i < |s| => LowerChar(s[i]))
  }

  // ---------------------------------------------------------------------
  // Prefixes, searching

  predicate StartsWith(s: string, prefix: string) {
    |prefix| <= |s| && s[..|prefix|] == prefix
  }

  /** `needle` occurs in `s` starting at position `j`. */
  predicate OccursAt(s: string, needle: string, j: int) {
    0 <= j && j + |needle| <= |s| && s[j..j + |needle|] == needle
  }

  /** `strpos`: the first position of `needle` in `s`, or `None` (PHP's
      `false`). An empty needle is found at 0, as in PHP 8. */
  function IndexOf(s: string, needle: string): (r: Option<nat>)
    ensures r.Some? ==> OccursAt(s, needle, r.value)
    ensures r.Some? ==> forall j :: 0 <= j < r.value ==> !OccursAt(s, needle, j)
    ensures r.None? ==> forall j :: !OccursAt(s, needle, j)
    decreases |s|
  {
    if |s| < |needle| then None
    else if s[..|needle|] == needle then Some(0)
    else
      var rest := IndexOf(s[1..], needle);
      assert forall j :: 1 <= j ==> (OccursAt(s, needle, j) <==> OccursAt(s[1..], needle, j - 1));
      if rest.None? then None else Some(rest.value + 1)
  }

  /** `stripos`: `strpos` after lower-casing both sides. */
  function IndexOfIgnoreCase(s: string, needle: string): Option<nat> {
    IndexOf(ToLower(s), ToLower(needle))
  }

  // ---------------------------------------------------------------------
  // trim

  function TrimLeft(s: string, chars: set<char>): (r: string)
    ensures |r| <= |s| && r == s[|s| - |r|..]
    ensures r != [] ==> r[0] !in chars
    decreases |s|
  {
    if s != [] && s[0] in chars then TrimLeft(s[1..], chars) else s
  }

  function TrimRight(s: string, chars: set<char>): (r: string)
    ensures |r| <= |s| && r == s[..|r|]
    ensures r != [] ==> r[|r| - 1] !in chars
    decreases |s|
  {
    if s != [] && s[|s| - 1] in chars then TrimRight(s[..|s| - 1], chars) else s
  }

  /** `trim($s, $chars)`: strips characters of `chars` from both ends. */
  function Trim(s: string, chars: set<char>): string {
    TrimRight(TrimLeft(s, chars), chars)
  }

  /** A trimmed string is made of characters of the original. */
  lemma TrimChars(s: string, chars: set<char>)
    ensures forall c :: c in Trim(s, chars) ==> c in s
  {
    var l := TrimLeft(s, chars);
    assert forall c :: c in l ==> c in s;
    assert forall c :: c in TrimRight(l, chars) ==> c in l;
  }

  /** Trimming twice is trimming once. */
  lemma TrimIdempotent(s: string, chars: set<char>)
    ensures Trim(Trim(s, chars), chars) == Trim(s, chars)
  {
    var l := TrimLeft(s, chars);
    var t := TrimRight(l, chars);
    if t != [] {
      assert t[0] == l[0];
      assert TrimLeft(t, chars) == t;
      assert TrimRight(t, chars) == t;
    }
  }

  /** The characters PHP's `trim` strips by default. */
  const Whitespace: set<char> := {' ', '\t', '\n', '\r', '\0', '\U{B}'}

  // ---------------------------------------------------------------------
  // str_replace

  /** `str_replace($from, $to, $s)`: every non-overlapping occurrence,
      scanning left to right; an empty search string changes nothing. */
  function ReplaceAll(s: string, from: string, to: string): (r: string)
    ensures IndexOf(s, from).None? ==> r == s
    decreases |s|
  {
    if from == [] then s
    else match IndexOf(s, from)
      case None => s
      case Some(i) => s[..i] + to + ReplaceAll(s[i + |from|..], from, to)
  }

  // ---------------------------------------------------------------------
  // explode / implode

  /** `explode($sep, $s)`: the pieces between non-overlapping occurrences
      of `sep`, left to right; PHP refuses an empty separator. */
  function Explode(s: string, sep: string): (parts: seq<string>)
    requires sep != []
    ensures |parts| >= 1
    decreases |s|
  {
    match IndexOf(s, sep)
    case None => [s]
    case Some(i) => [s[..i]] + Explode(s[i + |sep|..], sep)
  }

  /** `explode` cuts at the first occurrence of the separator. */
  lemma ExplodeFound(s: string, sep: string, i: nat)
    requires sep != [] && IndexOf(s, sep) == Some(i)
    ensures Explode(s, sep) == [s[..i]] + Explode(s[i + |sep|..], sep)
  {
  }

  /** Every piece is made of characters of `s`, and a one-character
      separator occurs in no piece. */
  lemma ExplodePieces(s: string, sep: string)
    requires sep != []
    ensures forall p, c :: p in Explode(s, sep) && c in p ==> c in s
    ensures |sep| == 1 ==> forall p :: p in Explode(s, sep) ==> sep[0] !in p
  {
    ExplodeChars(s, sep);
    if |sep| == 1 {
      ExplodeAvoidsSeparator(s, sep);
    }
  }

  lemma {:induction false} ExplodeChars(s: string, sep: string)
    requires sep != []
    ensures forall p, c :: p in Explode(s, sep) && c in p ==> c in s
    decreases |s|
  {
    var found := IndexOf(s, sep);
    if found.None? {
      assert Explode(s, sep) == [s];
    } else {
      var i := found.value;
      var head, tail := s[..i], s[i + |sep|..];
      ExplodeFound(s, sep, i);
      ExplodeChars(tail, sep);
      assert forall c :: c in head ==> c in s;
      assert forall c :: c in tail ==> c in s;
    }
  }

  /** A one-character separator that does not occur at `j` is not `s[j]`. */
  lemma NotAtSeparator(s: string, sep: string, j: nat)
    requires |sep| == 1 && j < |s| && !OccursAt(s, sep, j)
    ensures s[j] != sep[0]
  {
    assert s[j..j + 1] == [s[j]];
  }

  lemma {:induction false} ExplodeAvoidsSeparator(s: string, sep: string)
    requires |sep| == 1
    ensures forall p :: p in Explode(s, sep) ==> sep[0] !in p
    decreases |s|
  {
    var found := IndexOf(s, sep);
    if found.None? {
      assert Explode(s, sep) == [s];
      forall j | 0 <= j < |s|
        ensures s[j] != sep[0]
      {
        NotAtSeparator(s, sep, j);
      }
    } else {
      var i := found.value;
      var head, tail := s[..i], s[i + |sep|..];
      ExplodeFound(s, sep, i);
      ExplodeAvoidsSeparator(tail, sep);
      forall j | 0 <= j < i
        ensures head[j] != sep[0]
      {
        NotAtSeparator(s, sep, j);
      }
    }
  }

  /** `implode($sep, $parts)`. */
  function Implode(parts: seq<string>, sep: string): (r: string)
    decreases |parts|
  {
    if parts == [] then ""
    else if |parts| == 1 then parts[0]
    else parts[0] + sep + Implode(parts[1..], sep)
  }

  lemma {:induction false} ImplodeCons(p: string, parts: seq<string>, sep: string)
    requires parts != []
    ensures Implode([p] + parts, sep) == p + sep + Implode(parts, sep)
  {
    assert ([p] + parts)[1..] == parts;
  }

  /** `s` is the text before an occurrence of `sep`, `sep`, and the rest. */
  lemma SplitAt(s: string, sep: string, i: nat)
    requires OccursAt(s, sep, i)
    ensures s == s[..i] + sep + s[i + |sep|..]
  {
    assert s[i..] == sep + s[i + |sep|..];
    assert s == s[..i] + s[i..];
  }

  /** Joining the pieces of `explode` with the same separator gives the
      string back. */
  lemma {:induction false} ImplodeExplode(s: string, sep: string)
    requires sep != []
    ensures Implode(Explode(s, sep), sep) == s
    decreases |s|
  {
    var found := IndexOf(s, sep);
    if found.None? {
      assert Explode(s, sep) == [s];
    } else {
      var i := found.value;
      var head, tail := s[..i], s[i + |sep|..];
      var rest := Explode(tail, sep);
      ExplodeFound(s, sep, i);
      ImplodeExplode(tail, sep);
      ImplodeCons(head, rest, sep);
      SplitAt(s, sep, i);
    }
  }

  // ---------------------------------------------------------------------
  // array_unique, in_array

  predicate NoDuplicates<T(==)>(s: seq<T>) {
    forall i, j :: 0 <= i < j < |s| ==> s[i] != s[j]
  }

  lemma NoDuplicatesCons<T>(x: T, s: seq<T>)
    requires NoDuplicates(s) && x !in s
    ensures NoDuplicates([x] + s)
  {
    var t := [x] + s;
    assert forall j :: 1 <= j < |t| ==> t[j] == s[j - 1];
  }

  lemma NoDuplicatesTail<T>(s: seq<T>)
    requires s != [] && NoDuplicates(s)
    ensures NoDuplicates(s[1..]) && s[0] !in s[1..]
  {
    assert forall i, j :: 0 <= i < j < |s| - 1 ==> s[1..][i] == s[i + 1] && s[1..][j] == s[j + 1];
  }

  /** `array_unique`: keeps the first occurrence of every value, in order. */
  function Unique<T(==,!new)>(s: seq<T>): (r: seq<T>)
    ensures NoDuplicates(r)
    ensures forall x :: x in r <==> x in s
    ensures |r| <= |s|
    decreases |s|
  {
    if s == [] then []
    else
      var u := Unique(s[..|s| - 1]);
      assert forall x :: x in s <==> x in s[..|s| - 1] || x == s[|s| - 1];
      if s[|s| - 1] in u then u else u + [s[|s| - 1]]
  }

  /** Keeps the elements satisfying `p`, in order (`array_filter`). */
  function Filter<T(!new)>(s: seq<T>, p: T -> bool): (r: seq<T>)
    ensures |r| <= |s|
    ensures forall x :: x in r <==> x in s && p(x)
    decreases |s|
  {
    if s == [] then []
    else
      assert forall x :: x in s <==> x == s[0] || x in s[1..];
      (if p(s[0]) then [s[0]] else []) + Filter(s[1..], p)
  }

  /** Filtering a duplicate-free list keeps it duplicate-free. */
  lemma {:induction false} FilterNoDuplicates<T(!new)>(s: seq<T>, p: T -> bool)
    requires NoDuplicates(s)
    ensures NoDuplicates(Filter(s, p))
    decreases |s|
  {
    if s != [] {
      NoDuplicatesTail(s);
      FilterNoDuplicates(s[1..], p);
      var t := Filter(s[1..], p);
      if p(s[0]) {
        var r := [s[0]] + t;
        assert forall j :: 1 <= j < |r| ==> r[j] == t[j - 1] && r[j] in t;
      } else {
        assert Filter(s, p) == t;
      }
    }
  }

  /** Removes every occurrence of `x`. */
  function RemoveAll<T(==,!new)>(s: seq<T>, x: T): (r: seq<T>)
    ensures x !in r
    ensures forall y :: y != x ==> (y in r <==> y in s)
  {
    Filter(s, y => y != x)
  }

  // ---------------------------------------------------------------------
  // Decimal rendering of integers (PHP's int-to-string conversion)

  function DigitChar(d: nat): char
    requires d < 10
  {
    ('0' as int + d) as char
  }

  function NatToString(n: nat): (r: string)
    ensures |r| >= 1
    ensures forall i :: 0 <= i < |r| ==> '0' <= r[i] <= '9'
  {
    if n < 10 then [DigitChar(n)] else NatToString(n / 10) + [DigitChar(n % 10)]
  }

  function IntToString(i: int): string {
    if i < 0 then "-" + NatToString(-i) else NatToString(i)
  }

  function DigitValue(c: char): nat
    requires '0' <= c <= '9'
  {
    c as int - '0' as int
  }

  /** Reads back a string of decimal digits. */
  function ParseDigits(s: string): nat
    requires forall i :: 0 <= i < |s| ==> '0' <= s[i] <= '9'
    decreases |s|
  {
    if s == [] then 0 else ParseDigits(s[..|s| - 1]) * 10 + DigitValue(s[|s| - 1])
  }

  lemma {:induction false} ParseNatToString(n: nat)
    ensures ParseDigits(NatToString(n)) == n
  {
    if n >= 10 {
      ParseNatToString(n / 10);
      var s := NatToString(n);
      assert s[..|s| - 1] == NatToString(n / 10);
    }
  }

  /** Rendering is injective: distinct numbers give distinct strings. */
  lemma NatToStringInjective(m: nat, n: nat)
    requires NatToString(m) == NatToString(n)
    ensures m == n
  {
    ParseNatToString(m);
    ParseNatToString(n);
  }

  // ---------------------------------------------------------------------
  // array_search and unset on lists

  /** `array_search( $x, $s, true )`: the first index holding `x`. */
  function FirstIndex<T(==)>(s: seq<T>, x: T): (i: nat)
    requires x in s
    ensures i < |s| && s[i] == x
    ensures forall j :: 0 <= j < i ==> s[j] != x
  {
    if s[0] == x then 0 else 1 + FirstIndex(s[1..], x)
  }

  function RemoveAt<T>(s: seq<T>, i: nat): (r: seq<T>)
    requires i < |s|
    ensures |r| == |s| - 1
  {
    s[..i] + s[i + 1..]
  }

  /** Removing one element of a duplicate-free list removes that value
      altogether and keeps the list duplicate-free. */
  lemma RemoveAtNoDuplicates<T>(s: seq<T>, i: nat)
    requires i < |s| && NoDuplicates(s)
    ensures NoDuplicates(RemoveAt(s, i))
    ensures forall x :: x in RemoveAt(s, i) <==> x in s && x != s[i]
  {
    var r := RemoveAt(s, i);
    assert forall j :: 0 <= j < |r| ==> r[j] == if j < i then s[j] else s[j + 1];
    forall x | x in s && x != s[i]
      ensures x in r
    {
      var j :| 0 <= j < |s| && s[j] == x;
      assert r[if j < i then j else j - 1] == x;
    }
  }

  lemma FirstIndexAt<T>(s: seq<T>, x: T, i: nat)
    requires i < |s| && s[i] == x && forall j :: 0 <= j < i ==> s[j] != x
    ensures FirstIndex(s, x) == i
  {
  }

  // ---------------------------------------------------------------------
  // Ordered string-keyed arrays

  /** A PHP array with string keys: insertion-ordered pairs, keys unique. */
  type Assoc<V> = seq<(string, V)>

  function Keys<V>(a: Assoc<V>): (ks: seq<string>)
    ensures |ks| == |a|
    ensures forall i :: 0 <= i < |a| ==> ks[i] == a[i].0
    decreases |a|
  {
    if a == [] then [] else [a[0].0] + Keys(a[1..])
  }

  predicate UniqueKeys<V>(a: Assoc<V>) {
    NoDuplicates(Keys(a))
  }

  /** `$a[$k]`, or `None` when the key is absent. */
  function Get<V>(a: Assoc<V>, k: string): (r: Option<V>)
    ensures r.None? <==> k !in Keys(a)
    decreases |a|
  {
    if a == [] then None
    else if a[0].0 == k then Some(a[0].1)
    else Get(a[1..], k)
  }

  /** The first pair with key `k` is the one `Get` reads. */
  lemma {:induction false} GetFirst<V>(a: Assoc<V>, k: string, i: nat)
    requires i < |a| && a[i].0 == k
    requires forall j :: 0 <= j < i ==> a[j].0 != k
    ensures Get(a, k) == Some(a[i].1)
    decreases i
  {
    if i > 0 {
      GetFirst(a[1..], k, i - 1);
    }
  }

  /** `$a[$k] = $v`: replaces in place when the key exists, appends otherwise. */
  function Put<V>(a: Assoc<V>, k: string, v: V): (r: Assoc<V>)
    decreases |a|
  {
    if a == [] then [(k, v)]
    else if a[0].0 == k then [(k, v)] + a[1..]
    else [a[0]] + Put(a[1..], k, v)
  }

  /** After `$a[$k] = $v`, reading `k` gives `v` and every other key reads
      as before. */
  lemma {:induction false} PutGet<V>(a: Assoc<V>, k: string, v: V, k': string)
    ensures Get(Put(a, k, v), k') == if k' == k then Some(v) else Get(a, k')
    decreases |a|
  {
    if a != [] && a[0].0 != k {
      PutGet(a[1..], k, v, k');
    }
  }

  lemma PutGetAll<V>(a: Assoc<V>, k: string, v: V)
    ensures forall k' :: Get(Put(a, k, v), k') == if k' == k then Some(v) else Get(a, k')
  {
    forall k' {
      PutGet(a, k, v, k');
    }
  }

  /** Assigning to an existing key keeps the key order; a new key goes last. */
  lemma {:induction false} PutKeys<V>(a: Assoc<V>, k: string, v: V)
    ensures Keys(Put(a, k, v)) == if k in Keys(a) then Keys(a) else Keys(a) + [k]
    decreases |a|
  {
    if a != [] && a[0].0 != k {
      PutKeys(a[1..], k, v);
      assert Keys(Put(a, k, v)) == [a[0].0] + Keys(Put(a[1..], k, v));
    }
  }

  /** Assignment keeps the keys unique. */
  lemma PutUniqueKeys<V>(a: Assoc<V>, k: string, v: V)
    requires UniqueKeys(a)
    ensures UniqueKeys(Put(a, k, v))
  {
    PutKeys(a, k, v);
    if k !in Keys(a) {
      var ks := Keys(a) + [k];
      assert forall i :: 0 <= i < |Keys(a)| ==> ks[i] == Keys(a)[i];
    }
  }

  /** `unset($a[$k])`. */
  function Unset<V>(a: Assoc<V>, k: string): (r: Assoc<V>)
    ensures Get(r, k).None?
    ensures forall k' :: k' != k ==> Get(r, k') == Get(a, k')
    decreases |a|
  {
    if a == [] then []
    else if a[0].0 == k then Unset(a[1..], k)
    else [a[0]] + Unset(a[1..], k)
  }

  /** `unset` drops exactly the pairs with that key. */
  lemma {:induction false} UnsetMembers<V>(a: Assoc<V>, k: string)
    ensures forall e :: e in Unset(a, k) <==> e in a && e.0 != k
    decreases |a|
  {
    if a != [] {
      UnsetMembers(a[1..], k);
      assert forall e :: e in a <==> e == a[0] || e in a[1..];
    }
  }

  /** Filtering an array keeps only keys it had, each once if they were. */
  lemma FilterKeys<V(!new)>(a: Assoc<V>, p: ((string, V)) -> bool)
    ensures forall k :: k in Keys(Filter(a, p)) ==> k in Keys(a)
    ensures UniqueKeys(a) ==> UniqueKeys(Filter(a, p))
  {
    FilterKeysSubset(a, p);
    if UniqueKeys(a) {
      FilterUniqueKeys(a, p);
    }
  }

  lemma {:induction false} FilterKeysSubset<V(!new)>(a: Assoc<V>, p: ((string, V)) -> bool)
    ensures forall k :: k in Keys(Filter(a, p)) ==> k in Keys(a)
    decreases |a|
  {
    if a != [] {
      FilterKeysSubset(a[1..], p);
      var t := Filter(a[1..], p);
      assert Keys(a) == [a[0].0] + Keys(a[1..]);
      if p(a[0]) {
        assert Filter(a, p) == [a[0]] + t;
        assert Keys(Filter(a, p)) == [a[0].0] + Keys(t);
      } else {
        assert Filter(a, p) == t;
      }
    }
  }

  lemma {:induction false} FilterUniqueKeys<V(!new)>(a: Assoc<V>, p: ((string, V)) -> bool)
    requires UniqueKeys(a)
    ensures UniqueKeys(Filter(a, p))
    decreases |a|
  {
    if a != [] {
      assert Keys(a) == [a[0].0] + Keys(a[1..]);
      NoDuplicatesTail(Keys(a));
      FilterUniqueKeys(a[1..], p);
      var t := Filter(a[1..], p);
      if p(a[0]) {
        FilterKeysSubset(a[1..], p);
        assert Filter(a, p) == [a[0]] + t;
        assert Keys(Filter(a, p)) == [a[0].0] + Keys(t);
        NoDuplicatesCons(a[0].0, Keys(t));
      } else {
        assert Filter(a, p) == t;
      }
    }
  }

  /** One step of a filtering loop over `s[k..]`: the element `s[k]` is
      kept or dropped, the rest is filtered. */
  lemma FilterStep<T(!new)>(s: seq<T>, k: nat, p: T -> bool, done: seq<T>)
    requires k < |s|
    ensures done + Filter(s[k..], p) == (done + (if p(s[k]) then [s[k]] else [])) + Filter(s[k + 1..], p)
  {
    var t := s[k..];
    assert t[0] == s[k] && t[1..] == s[k + 1..];
    var e, rest := (if p(s[k]) then [s[k]] else []), Filter(s[k + 1..], p);
    assert Filter(t, p) == e + rest;
    assert done + (e + rest) == (done + e) + rest;
  }

  /** Reading a key of a filtered array: the pair is there iff it was and
      passes the test. */
  lemma {:induction false} FilterGet<V(!new)>(a: Assoc<V>, p: ((string, V)) -> bool, k: string)
    requires UniqueKeys(a)
    ensures Get(Filter(a, p), k) == if Get(a, k).Some? && p((k, Get(a, k).value)) then Get(a, k) else None
    decreases |a|
  {
    if a != [] {
      assert Keys(a) == [a[0].0] + Keys(a[1..]);
      NoDuplicatesTail(Keys(a));
      FilterGet(a[1..], p, k);
      FilterKeys(a[1..], p);
      if p(a[0]) {
        assert Filter(a, p) == [a[0]] + Filter(a[1..], p);
      } else {
        assert Filter(a, p) == Filter(a[1..], p);
        if a[0].0 == k {
          assert k !in Keys(Filter(a[1..], p));
        }
      }
      if a[0].0 == k {
        assert Get(a[1..], k).None?;
      }
    }
  }

  /** `array_merge($a, $b)` for string keys: later values win, new keys are
      appended in `b`'s order. */
  function Merge<V>(a: Assoc<V>, b: Assoc<V>): (r: Assoc<V>)
    decreases |b|
  {
    if b == [] then a else Merge(Put(a, b[0].0, b[0].1), b[1..])
  }

  /** What `array_merge` promises: a key of `b` takes `b`'s value, any other
      key keeps `a`'s. */
  lemma {:induction false} MergeGet<V>(a: Assoc<V>, b: Assoc<V>, k: string)
    requires UniqueKeys(b)
    ensures Get(Merge(a, b), k) == if Get(b, k).Some? then Get(b, k) else Get(a, k)
    decreases |b|
  {
    if b != [] {
      assert Merge(a, b) == Merge(Put(a, b[0].0, b[0].1), b[1..]);
      assert Keys(b) == [b[0].0] + Keys(b[1..]);
      NoDuplicatesTail(Keys(b));
      MergeGet(Put(a, b[0].0, b[0].1), b[1..], k);
      PutGet(a, b[0].0, b[0].1, k);
    }
  }

  /** `array_merge` onto an array with unique keys keeps them unique. */
  lemma {:induction false} MergeUniqueKeys<V>(a: Assoc<V>, b: Assoc<V>)
    requires UniqueKeys(a)
    ensures UniqueKeys(Merge(a, b))
    decreases |b|
  {
    if b != [] {
      PutUniqueKeys(a, b[0].0, b[0].1);
      MergeUniqueKeys(Put(a, b[0].0, b[0].1), b[1..]);
    }
  }
}
