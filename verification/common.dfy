/** Shared vocabulary of the model: option and result wrappers, JSON-like values,
    Python slicing and the bounded deque, the few `str` operations the components
    rely on, and an insertion-ordered dictionary. */
module Common {

  datatype Option<+T> = None | Some(value: T)

  datatype Result<+T, +E> = Ok(value: T) | Err(error: E)

  type byte = x: int | 0 <= x < 256

  /** A JSON-compatible Python value, as carried in event data and configuration dicts. */
  datatype Value =
    | Null
    | Bool(b: bool)
    | Int(i: int)
    | Real(r: real)
    | Str(s: string)
    | List(items: seq<Value>)
    | Dict(entries: map<string, Value>)

  /** Python truthiness of a JSON-like value: `None`, `False`, zero and empty
      containers are false. */
  predicate Truthy(v: Value) {
    match v
    case Null => false
    case Bool(b) => b
    case Int(i) => i != 0
    case Real(r) => r != 0.0
    case Str(s) => s != []
    case List(items) => items != []
    case Dict(entries) => entries != map[]
  }

  function Min(a: int, b: int): int { if a < b then a else b }

  function Max(a: int, b: int): int { if a < b then b else a }

  // ---------------------------------------------------------------------------
  // Sequences
  // ---------------------------------------------------------------------------

  /** Python `s[-k:]` for any integer `k`: the last `k` items when `k > 0`, the
      whole list when `k == 0` (`-0` is `0`), and everything but the first `-k`
      items when `k < 0`. */
  function PyTail<T>(s: seq<T>, k: int): (r: seq<T>)
    ensures |r| == (if k > 0 then Min(k, |s|) else Max(0, |s| + k))
    ensures r == s[|s| - |r|..]
  {
    if k > 0 then (if k >= |s| then s else s[|s| - k..])
    else if -k >= |s| then [] else s[-k..]
  }

  /** `collections.deque(maxlen=cap).append(x)` on a deque currently holding `s`:
      the newest item is kept and, when the deque is full, the oldest is dropped. */
  function BoundedAppend<T>(s: seq<T>, x: T, cap: nat): (r: seq<T>)
    requires |s| <= cap
    ensures |r| == Min(|s| + 1, cap)
    ensures r == (s + [x])[|s| + 1 - |r|..]
  {
    if |s| < cap then s + [x] else (s + [x])[|s| + 1 - cap..]
  }

  /** The items of `s` satisfying `p`, in their original order (a list comprehension
      with an `if`). */
  function Filter<T(==)>(s: seq<T>, p: T -> bool): (r: seq<T>)
    ensures |r| <= |s|
    ensures forall i :: 0 <= i < |r| ==> r[i] in s && p(r[i])
    ensures forall i :: 0 <= i < |s| && p(s[i]) ==> s[i] in r
  {
    if s == [] then [] else (if p(s[0]) then [s[0]] else []) + Filter(s[1..], p)
  }

  lemma {:induction false} FilterConcat<T>(a: seq<T>, b: seq<T>, p: T -> bool)
    ensures Filter(a + b, p) == Filter(a, p) + Filter(b, p)
    decreases |a|
  {
    if a == [] {
      assert a + b == b;
    } else {
      assert (a + b)[1..] == a[1..] + b;
      FilterConcat(a[1..], b, p);
    }
  }

  /** Filtering a list with one more item at the end. */
  lemma FilterSnoc<T>(s: seq<T>, x: T, p: T -> bool)
    ensures Filter(s + [x], p) == Filter(s, p) + (if p(x) then [x] else [])
  {
    FilterConcat(s, [x], p);
    assert [x][1..] == [];
  }

  /** Filtering with pointwise-equal predicates gives the same list. */
  lemma {:induction false} FilterExt<T>(s: seq<T>, p: T -> bool, q: T -> bool)
    requires forall x :: p(x) == q(x)
    ensures Filter(s, p) == Filter(s, q)
    decreases |s|
  {
    if s != [] {
      FilterExt(s[1..], p, q);
    }
  }

  /** Two filters applied one after the other keep exactly the items satisfying both. */
  lemma {:induction false} FilterAnd<T>(s: seq<T>, p: T -> bool, q: T -> bool, both: T -> bool)
    requires forall x :: both(x) == (p(x) && q(x))
    ensures Filter(Filter(s, p), q) == Filter(s, both)
    decreases |s|
  {
    if s != [] {
      FilterAnd(s[1..], p, q, both);
      var head := if p(s[0]) then [s[0]] else [];
      FilterConcat(head, Filter(s[1..], p), q);
    }
  }

  /** Filtering twice by the same predicate is filtering once. */
  lemma {:induction false} FilterIdempotent<T>(s: seq<T>, p: T -> bool)
    ensures Filter(Filter(s, p), p) == Filter(s, p)
    decreases |s|
  {
    if s != [] {
      FilterIdempotent(s[1..], p);
      var head := if p(s[0]) then [s[0]] else [];
      FilterConcat(head, Filter(s[1..], p), p);
    }
  }

  /** A filter whose predicate holds of every item returns the list unchanged. */
  lemma {:induction false} FilterAll<T>(s: seq<T>, p: T -> bool)
    requires forall i :: 0 <= i < |s| ==> p(s[i])
    ensures Filter(s, p) == s
    decreases |s|
  {
    if s != [] {
      FilterAll(s[1..], p);
    }
  }

  /** A filter whose predicate fails for every item returns the empty list. */
  lemma {:induction false} FilterNone<T>(s: seq<T>, p: T -> bool)
    requires forall i :: 0 <= i < |s| ==> !p(s[i])
    ensures Filter(s, p) == []
    decreases |s|
  {
    if s != [] {
      FilterNone(s[1..], p);
    }
  }

  /** No two positions of `s` hold the same item. */
  predicate Distinct<T(==)>(s: seq<T>) {
    forall i, j :: 0 <= i < j < |s| ==> s[i] != s[j]
  }

  /** All the pieces of `chunks`, joined end to end. */
  function Flatten<T>(chunks: seq<seq<T>>): seq<T> {
    if chunks == [] then [] else chunks[0] + Flatten(chunks[1..])
  }

  lemma {:induction false} FlattenSnoc<T>(chunks: seq<seq<T>>, c: seq<T>)
    ensures Flatten(chunks + [c]) == Flatten(chunks) + c
    decreases |chunks|
  {
    if chunks == [] {
      assert [] + [c] == [c];
    } else {
      assert (chunks + [c])[1..] == chunks[1..] + [c];
      FlattenSnoc(chunks[1..], c);
    }
  }

  /** Concatenation of a list of strings (`"".join(parts)`). */
  function Concat(parts: seq<string>): string {
    if parts == [] then "" else parts[0] + Concat(parts[1..])
  }

  // ---------------------------------------------------------------------------
  // Strings
  // ---------------------------------------------------------------------------

  /** Python's `str.isspace()`: the ASCII controls `\t` to `\r`, the separators
      `\x1c` to `\x1f`, the space, and the Unicode spaces and line separators.
      `strip()` and `split()` without arguments cut at exactly these. */
  predicate IsSpace(c: char) {
    || '\t' <= c <= '\r' || '\U{1C}' <= c <= '\U{1F}' || c == ' '
    || c == '\U{85}' || c == '\U{A0}' || c == '\U{1680}'
    || '\U{2000}' <= c <= '\U{200A}' || c == '\U{2028}' || c == '\U{2029}'
    || c == '\U{202F}' || c == '\U{205F}' || c == '\U{3000}'
  }

  predicate AllSpace(s: string) {
    forall i :: 0 <= i < |s| ==> IsSpace(s[i])
  }

  /** `s.lstrip()`: drops the leading whitespace and nothing else. */
  function StripLeft(s: string): (r: string)
    ensures |r| <= |s|
    ensures r == s[|s| - |r|..]
    ensures r == [] || !IsSpace(r[0])
    ensures AllSpace(s[..|s| - |r|])
    ensures r == [] <==> AllSpace(s)
  {
    if s == [] || !IsSpace(s[0]) then s
    else
      var r := StripLeft(s[1..]);
      AllSpaceCons(s[0], s[1..][..|s| - 1 - |r|]);
      assert s[..|s| - |r|] == [s[0]] + s[1..][..|s| - 1 - |r|];
      AllSpaceCons(s[0], s[1..]);
      assert s == [s[0]] + s[1..];
      r
  }

  lemma AllSpaceCons(c: char, t: string)
    ensures AllSpace([c] + t) <==> IsSpace(c) && AllSpace(t)
  {
    var s := [c] + t;
    assert s[0] == c && s[1..] == t;
    if AllSpace(s) {
      assert forall i :: 0 <= i < |t| ==> IsSpace(s[1..][i]);
    }
    if IsSpace(c) && AllSpace(t) {
      forall i | 0 <= i < |s|
        ensures IsSpace(s[i])
      {
        if i > 0 {
          assert s[i] == t[i - 1];
        }
      }
    }
  }

  /** `s.rstrip()`: drops the trailing whitespace and nothing else. */
  function StripRight(s: string): (r: string)
    ensures |r| <= |s|
    ensures r == s[..|r|]
    ensures r == [] || !IsSpace(r[|r| - 1])
    ensures AllSpace(s[|r|..])
    ensures r == [] <==> AllSpace(s)
  {
    if s == [] || !IsSpace(s[|s| - 1]) then s
    else
      var r := StripRight(s[..|s| - 1]);
      assert s[|r|..] == s[..|s| - 1][|r|..] + [s[|s| - 1]];
      r
  }

  /** `s.strip()`. */
  function Strip(s: string): (r: string)
    ensures |r| <= |s|
    ensures r == [] || (!IsSpace(r[0]) && !IsSpace(r[|r| - 1]))
    ensures r == [] <==> AllSpace(s)
  {
    var l := StripLeft(s);
    var r := StripRight(l);
    assert AllSpace(l) ==> l == [] by {
      assert l == [] || !IsSpace(l[0]);
    }
    r
  }

  /** Stripping leaves a text without outer whitespace as it is. */
  lemma TrimmedStrip(s: string)
    requires s != [] && !IsSpace(s[0]) && !IsSpace(s[|s| - 1])
    ensures Strip(s) == s
  {
    assert StripLeft(s) == s;
    assert StripRight(s) == s;
  }

  /** Stripping twice is stripping once. */
  lemma StripIdempotent(s: string)
    ensures Strip(Strip(s)) == Strip(s)
  {
    var t := Strip(s);
    assert StripLeft(t) == t;
    assert StripRight(t) == t;
  }

  /** `lstrip()` is pinned down by its contract: the suffix starting at the first
      non-whitespace character (empty when there is none). */
  lemma StripLeftUnique(s: string, r: string)
    requires |r| <= |s| && r == s[|s| - |r|..]
    requires r == [] || !IsSpace(r[0])
    requires AllSpace(s[..|s| - |r|])
    ensures StripLeft(s) == r
  {
    StripLeftDrop(s, |s| - |r|);
  }

  /** Leading whitespace can be dropped before stripping. */
  lemma {:induction false} StripLeftDrop(s: string, k: nat)
    requires k <= |s| && AllSpace(s[..k])
    ensures StripLeft(s) == StripLeft(s[k..])
    decreases k
  {
    if k > 0 {
      AllSpaceAt(s[..k], 0);
      assert s[1..][..k - 1] == s[..k][1..];
      assert s[1..][k - 1..] == s[k..];
      StripLeftDrop(s[1..], k - 1);
    }
  }

  /** `rstrip()` is pinned down by its contract: the prefix ending at the last
      non-whitespace character (empty when there is none). */
  lemma StripRightUnique(s: string, r: string)
    requires |r| <= |s| && r == s[..|r|]
    requires r == [] || !IsSpace(r[|r| - 1])
    requires AllSpace(s[|r|..])
    ensures StripRight(s) == r
  {
    var q := StripRight(s);
    if |q| < |r| {
      assert false;
    } else if |q| > |r| {
      assert false;
    }
  }

  /** Stripping a text that is leading whitespace, a word and a rest starting
      with whitespace keeps the word and the right-stripped rest. */
  lemma StripAroundWord(gap: string, w: string, post: string)
    requires AllSpace(gap) && w != [] && NoSpace(w)
    ensures Strip(gap + w + post) == w + StripRight(post)
  {
    StripLeftBeforeWord(gap, w, post);
    StripRightAfterWord(w, post);
  }

  lemma StripLeftBeforeWord(gap: string, w: string, post: string)
    requires AllSpace(gap) && w != [] && NoSpace(w)
    ensures StripLeft(gap + w + post) == w + post
  {
    var s := gap + w + post;
    assert s[|s| - |w + post|..] == w + post;
    assert s[..|s| - |w + post|] == gap;
    StripLeftUnique(s, w + post);
  }

  lemma StripRightAfterWord(w: string, post: string)
    requires w != [] && NoSpace(w)
    ensures StripRight(w + post) == w + StripRight(post)
  {
    var p := StripRight(post);
    var r := w + p;
    assert (w + post)[..|r|] == r;
    assert (w + post)[|r|..] == post[|p|..];
    StripRightUnique(w + post, r);
  }

  /** No whitespace at all. */
  predicate NoSpace(w: string) {
    forall i :: 0 <= i < |w| ==> !IsSpace(w[i])
  }

  lemma AllSpaceAt(s: string, i: nat)
    requires AllSpace(s) && i < |s|
    ensures IsSpace(s[i])
  {
  }

  lemma SpaceAfterWord(w: string, post: string)
    requires post != [] && IsSpace(post[0])
    ensures IsSpace((w + post)[|w|])
  {
  }

  lemma NoSpaceAt(w: string, post: string, i: nat)
    requires NoSpace(w) && i < |w|
    ensures !IsSpace((w + post)[i])
  {
  }

  /** Length of the leading run of non-whitespace characters. */
  function WordLength(s: string): (n: nat)
    ensures n <= |s|
    ensures forall i :: 0 <= i < n ==> !IsSpace(s[i])
    ensures n == |s| || IsSpace(s[n])
  {
    if s == [] || IsSpace(s[0]) then 0 else 1 + WordLength(s[1..])
  }

  /** The first word of `name + rest` is `name` when the name has no
      whitespace and the rest is empty or starts with whitespace. */
  lemma FirstWordOf(name: string, rest: string)
    requires name != [] && NoSpace(name)
    requires rest == [] || IsSpace(rest[0])
    ensures !AllSpace(name + rest) && Words(name + rest)[0] == name
  {
    var s := name + rest;
    assert !IsSpace(s[0]);
    var n := WordLength(s);
    assert forall i :: 0 <= i < |name| ==> s[i] == name[i];
    assert |name| < |s| ==> s[|name|] == rest[0];
    assert n == |name|;
    assert s[..n] == name;
  }

  /** A non-empty piece that does not start with whitespace. */
  predicate IsWord(w: string) {
    w != [] && !IsSpace(w[0])
  }

  /** `s.split()` with no argument: the maximal runs of non-whitespace characters. */
  function Words(s: string): (r: seq<string>)
    ensures forall i :: 0 <= i < |r| ==> IsWord(r[i]) && NoSpace(r[i])
    ensures r == [] <==> AllSpace(s)
    decreases |s|
  {
    if s == [] then []
    else if IsSpace(s[0]) then
      assert AllSpace(s) <==> AllSpace(s[1..]) by {
        assert forall i :: 1 <= i < |s| ==> s[i] == s[1..][i - 1];
      }
      Words(s[1..])
    else
      var n := WordLength(s);
      [s[..n]] + Words(s[n..])
  }

  /** The word a text starts with, after any whitespace, and the text after
      that word: together with the blank case this determines `split()`. */
  lemma {:induction false} WordsCons(gap: string, w: string, post: string)
    requires AllSpace(gap) && w != [] && NoSpace(w) && (post == [] || IsSpace(post[0]))
    ensures Words(gap + w + post) == [w] + Words(post)
    decreases |gap|
  {
    var s := gap + w + post;
    if gap == [] {
      assert s == w + post;
      assert WordLength(s) == |w| by {
        var n := WordLength(s);
        if n < |w| {
          NoSpaceAt(w, post, n);
          assert false;
        } else if n > |w| {
          SpaceAfterWord(w, post);
          assert false;
        }
      }
      assert s[..|w|] == w && s[|w|..] == post;
    } else {
      assert IsSpace(s[0]);
      assert s[1..] == gap[1..] + w + post;
      WordsCons(gap[1..], w, post);
    }
  }

  /** Upper-case letters of ASCII and of Latin-1 (`À` to `Þ` without `×`) and
      their lower-case partners, 32 code points on. */
  function LowerChar(c: char): char {
    if 'A' <= c <= 'Z' || ('\U{C0}' <= c <= '\U{DE}' && c != '\U{D7}') then (c as int + 32) as char else c
  }

  /** `s.lower()` on ASCII and Latin-1 letters, character by character. */
  function Lower(s: string): (r: string)
    ensures |r| == |s|
    ensures forall i :: 0 <= i < |s| ==> r[i] == LowerChar(s[i])
  {
    seq(|s|, i requires 0 <= i < |s| => LowerChar(s[i]))
  }

  /** Lower-casing is idempotent, so a query already in lower case is unaffected. */
  lemma LowerIdempotent(s: string)
    ensures Lower(Lower(s)) == Lower(s)
  {
  }

  /** `sub` occurs in `t` starting at position `i`. */
  predicate OccursAt(t: string, sub: string, i: nat) {
    i + |sub| <= |t| && t[i..i + |sub|] == sub
  }

  /** Python's `sub in t`. */
  predicate Contains(t: string, sub: string) {
    exists i: nat :: i <= |t| && OccursAt(t, sub, i)
  }

  /** The first occurrence of `sub` in `t` at or after position `i`, as `str.find`. */
  function FindFrom(t: string, sub: string, i: nat): (r: Option<nat>)
    requires i <= |t|
    ensures r.Some? ==> i <= r.value <= |t| && OccursAt(t, sub, r.value)
    ensures r.Some? ==> forall j: nat :: i <= j < r.value ==> !OccursAt(t, sub, j)
    ensures r.None? ==> forall j: nat :: i <= j <= |t| ==> !OccursAt(t, sub, j)
    decreases |t| - i
  {
    if OccursAt(t, sub, i) then Some(i)
    else if i == |t| then None
    else FindFrom(t, sub, i + 1)
  }

  function Find(t: string, sub: string): (r: Option<nat>)
    ensures r.Some? <==> Contains(t, sub)
    ensures r.Some? ==> OccursAt(t, sub, r.value)
    ensures r.Some? ==> forall j: nat :: j < r.value ==> !OccursAt(t, sub, j)
  {
    FindFrom(t, sub, 0)
  }

  lemma OccursInSuffix(t: string, sub: string, m: nat, j: nat)
    requires m <= |t|
    requires OccursAt(t[m..], sub, j)
    ensures OccursAt(t, sub, m + j)
  {
    assert t[m..][j..j + |sub|] == t[m + j..m + j + |sub|];
  }

  /** The occurrence at position `i` of `t`, seen from position `m <= i`. */
  lemma OccursInSuffixAt(t: string, sub: string, m: nat, i: nat)
    requires m <= i && OccursAt(t, sub, i)
    ensures OccursAt(t[m..], sub, i - m)
  {
    assert t[m..][i - m..i - m + |sub|] == t[i..i + |sub|];
  }

  /** `t.split(sep)[-1]`: the piece after the last occurrence of `sep` found by a
      left-to-right, non-overlapping scan, or all of `t` when `sep` is absent. */
  function SplitLast(t: string, sep: string): (r: string)
    requires |sep| > 0
    ensures |r| <= |t|
    ensures r == t[|t| - |r|..]
    ensures !Contains(t, sep) ==> r == t
    decreases |t|
  {
    var f := Find(t, sep);
    if f.None? then t
    else
      var rest := t[f.value + |sep|..];
      var r := SplitLast(rest, sep);
      assert rest[|rest| - |r|..] == t[|t| - |r|..];
      r
  }

  /** `r` holds no separator and, when `t` has one, directly follows one. */
  predicate FollowsLastSeparator(t: string, sep: string, r: string)
    requires |r| <= |t|
  {
    && !Contains(r, sep)
    && (Contains(t, sep) ==> |r| + |sep| <= |t| && OccursAt(t, sep, |t| - |r| - |sep|))
  }

  /** The last piece holds no separator and, when there is one, follows it. */
  lemma {:induction false} SplitLastFollowsSeparator(t: string, sep: string)
    requires |sep| > 0
    ensures FollowsLastSeparator(t, sep, SplitLast(t, sep))
    decreases |t|
  {
    var f := Find(t, sep);
    if f.Some? {
      var k := f.value;
      var rest := t[k + |sep|..];
      var r := SplitLast(rest, sep);
      assert SplitLast(t, sep) == r;
      SplitLastFollowsSeparator(rest, sep);
      SplitLastStep(t, sep, k, r);
    } else {
      assert SplitLast(t, sep) == t;
      assert !Contains(t, sep);
    }
  }

  lemma SplitLastStep(t: string, sep: string, k: nat, r: string)
    requires |sep| > 0 && OccursAt(t, sep, k)
    requires |r| <= |t[k + |sep|..]|
    requires !Contains(t[k + |sep|..], sep) ==> r == t[k + |sep|..]
    requires FollowsLastSeparator(t[k + |sep|..], sep, r)
    ensures FollowsLastSeparator(t, sep, r)
  {
    var rest := t[k + |sep|..];
    assert k <= |t| && OccursAt(t, sep, k);
    if Contains(rest, sep) {
      OccursInSuffix(t, sep, k + |sep|, |rest| - |r| - |sep|);
    } else {
      assert |t| - |r| - |sep| == k;
    }
  }

  /** No proper suffix of `sep` is also a prefix of it, so two occurrences of
      `sep` never overlap. */
  predicate Unbordered(sep: string) {
    forall d :: 0 < d < |sep| ==> sep[d..] != sep[..|sep| - d]
  }

  /** Two occurrences of an unbordered separator closer than its length are the
      same occurrence. */
  lemma UnborderedApart(t: string, sep: string, p: nat, q: nat)
    requires Unbordered(sep) && OccursAt(t, sep, p) && OccursAt(t, sep, q) && p <= q
    ensures q == p || q >= p + |sep|
  {
    if p < q < p + |sep| {
      OverlapIsBorder(t, sep, p, q);
      assert false;
    }
  }

  /** Two overlapping occurrences of `sep` make the overlap a border of it. */
  lemma OverlapIsBorder(t: string, sep: string, p: nat, q: nat)
    requires OccursAt(t, sep, p) && OccursAt(t, sep, q) && p < q < p + |sep|
    ensures sep[q - p..] == sep[..|sep| - (q - p)]
  {
    var d := q - p;
    forall i | 0 <= i < |sep| - d
      ensures sep[d..][i] == sep[..|sep| - d][i]
    {
      assert t[p..p + |sep|][d + i] == t[q..q + |sep|][i];
    }
  }

  /** The last piece of a split is what follows an occurrence of an unbordered
      separator that has none after it. */
  lemma SplitLastAfter(pre: string, sep: string, rest: string)
    requires |sep| > 0 && Unbordered(sep) && !Contains(rest, sep)
    ensures SplitLast(pre + sep + rest, sep) == rest
  {
    var t := pre + sep + rest;
    var r := SplitLast(t, sep);
    SplitLastFollowsSeparator(t, sep);
    assert OccursAt(t, sep, |pre|) by {
      assert t[|pre|..|pre| + |sep|] == sep;
    }
    assert |pre| <= |t|;
    var p := |t| - |r| - |sep|;
    assert OccursAt(t, sep, p);
    assert r == t[p + |sep|..];
    assert rest == t[|pre| + |sep|..];
    if p < |pre| {
      UnborderedApart(t, sep, p, |pre|);
      OccursInSuffixAt(t, sep, p + |sep|, |pre|);
      assert false;
    } else if p > |pre| {
      UnborderedApart(t, sep, |pre|, p);
      OccursInSuffixAt(t, sep, |pre| + |sep|, p);
      assert false;
    }
  }

  /** `s.replace(pat, repl)`: every occurrence found by a left-to-right,
      non-overlapping scan is replaced. */
  function ReplaceAll(s: string, pat: string, repl: string): (r: string)
    requires |pat| > 0
    ensures !Contains(s, pat) ==> r == s
    ensures repl == [] ==> |r| <= |s|
    decreases |s|
  {
    match Find(s, pat)
    case None => s
    case Some(k) => s[..k] + repl + ReplaceAll(s[k + |pat|..], pat, repl)
  }

  /** The first occurrence is replaced and the scan resumes after it: with the
      case of no occurrence this determines `replace`. */
  lemma ReplaceAllFirst(a: string, pat: string, repl: string, b: string)
    requires |pat| > 0
    requires forall j: nat :: j < |a| ==> !OccursAt(a + pat + b, pat, j)
    ensures ReplaceAll(a + pat + b, pat, repl) == a + repl + ReplaceAll(b, pat, repl)
  {
    var s := a + pat + b;
    assert OccursAt(s, pat, |a|) by {
      assert s[|a|..|a| + |pat|] == pat;
    }
    assert Find(s, pat) == Some(|a|);
    assert s[..|a|] == a;
    assert s[|a| + |pat|..] == b;
  }

  /** Removing `pat` from `c + pat` gives back `c` when the first occurrence of
      `pat` is the appended one. */
  lemma RemoveTrailingOccurrence(c: string, pat: string)
    requires |pat| > 0
    requires forall j: nat :: j < |c| ==> !OccursAt(c + pat, pat, j)
    ensures ReplaceAll(c + pat, pat, "") == c
  {
    var s := c + pat;
    assert OccursAt(s, pat, |c|) by { assert s[|c|..|c| + |pat|] == pat; }
    var f := Find(s, pat);
    assert f == Some(|c|);
    assert s[..|c|] == c;
    assert s[|c| + |pat|..] == [];
    assert !Contains([], pat);
    assert ReplaceAll(s, pat, "") == c + "" + ReplaceAll([], pat, "");
  }

  predicate EndsWith(s: string, suffix: string) {
    |suffix| <= |s| && s[|s| - |suffix|..] == suffix
  }

  /** `s.split(sep)` for a one-character separator: the pieces between the
      separators, empty pieces included. */
  function SplitOn(s: string, sep: char): (r: seq<string>)
    ensures |r| >= 1
    ensures forall i :: 0 <= i < |r| ==> sep !in r[i]
    decreases |s|
  {
    if sep !in s then [s]
    else
      var k := IndexOfChar(s, sep);
      [s[..k]] + SplitOn(s[k + 1..], sep)
  }

  function IndexOfChar(s: string, c: char): (k: nat)
    requires c in s
    ensures k < |s| && s[k] == c && c !in s[..k]
  {
    if s[0] == c then 0
    else
      var k := IndexOfChar(s[1..], c);
      assert s[..k + 1] == [s[0]] + s[1..][..k];
      1 + k
  }

  /** `sep.join(parts)`. */
  function Join(parts: seq<string>, sep: char): string
    requires |parts| >= 1
  {
    if |parts| == 1 then parts[0] else parts[0] + [sep] + Join(parts[1..], sep)
  }

  /** Splitting on a character and joining back with it gives the original text. */
  lemma {:induction false} JoinSplitOn(s: string, sep: char)
    ensures Join(SplitOn(s, sep), sep) == s
    decreases |s|
  {
    if sep in s {
      var k := IndexOfChar(s, sep);
      var rest := s[k + 1..];
      JoinSplitOn(rest, sep);
      var parts := SplitOn(s, sep);
      assert parts == [s[..k]] + SplitOn(rest, sep);
      assert parts[1..] == SplitOn(rest, sep);
      assert Join(parts, sep) == s[..k] + [sep] + Join(SplitOn(rest, sep), sep);
      assert s == s[..k] + [sep] + rest;
    }
  }

  // ---------------------------------------------------------------------------
  // Insertion-ordered dictionary (a Python `dict` with string keys)
  // ---------------------------------------------------------------------------

  datatype OMap<V> = OMap(keys: seq<string>, entries: map<string, V>)

  /** The key list names every entry exactly once. */
  predicate ValidMap<V>(m: OMap<V>) {
    && Distinct(m.keys)
    && (forall k :: k in m.entries ==> k in m.keys)
    && (forall i :: 0 <= i < |m.keys| ==> m.keys[i] in m.entries)
  }

  function EmptyMap<V>(): (r: OMap<V>)
    ensures ValidMap(r) && r.keys == []
  {
    OMap([], map[])
  }

  /** `d[k] = v`: a new key goes to the end; an existing key keeps its place. */
  function Put<V>(m: OMap<V>, k: string, v: V): (r: OMap<V>)
    requires ValidMap(m)
    ensures ValidMap(r)
    ensures r.entries == m.entries[k := v]
    ensures k in m.entries ==> r.keys == m.keys
    ensures k !in m.entries ==> r.keys == m.keys + [k]
  {
    if k in m.entries then OMap(m.keys, m.entries[k := v])
    else OMap(m.keys + [k], m.entries[k := v])
  }

  /** `del d[k]`: the other keys keep their order. */
  function Remove<V>(m: OMap<V>, k: string): (r: OMap<V>)
    requires ValidMap(m)
    ensures ValidMap(r)
    ensures r.entries == m.entries - {k}
    ensures r.keys == Filter(m.keys, Other(k))
  {
    var keys := Filter(m.keys, Other(k));
    FilterDistinct(m.keys, Other(k));
    OMap(keys, m.entries - {k})
  }

  /** The keys other than `k`. */
  function Other(k: string): string -> bool {
    x => x != k
  }

  lemma {:induction false} FilterDistinct<T>(s: seq<T>, p: T -> bool)
    requires Distinct(s)
    ensures Distinct(Filter(s, p))
    decreases |s|
  {
    if s != [] {
      FilterDistinct(s[1..], p);
      assert s[0] !in s[1..];
    }
  }

  /** Adding a new key and deleting it again gives back the same map, order included. */
  lemma RemoveUndoesPut<V>(m: OMap<V>, k: string, v: V)
    requires ValidMap(m) && k !in m.entries
    ensures Remove(Put(m, k, v), k) == m
  {
    var q := Put(m, k, v);
    assert k !in m.keys;
    DropAppendedKey(m.keys, k);
    assert Remove(q, k).keys == m.keys;
    assert m.entries[k := v] - {k} == m.entries;
  }

  /** Dropping a key appended to a list that lacks it gives the list back. */
  lemma DropAppendedKey(keys: seq<string>, k: string)
    requires k !in keys
    ensures Filter(keys + [k], Other(k)) == keys
  {
    var p := Other(k);
    FilterConcat(keys, [k], p);
    assert Filter([k], p) == [] by {
      assert !p(k);
      assert Filter([k], p) == [] + Filter([k][1..], p);
    }
    assert forall i :: 0 <= i < |keys| ==> p(keys[i]);
    FilterAll(keys, p);
    assert keys + [] == keys;
  }

  /** `list(d.values())`, in key order. */
  function Values<V>(m: OMap<V>): (r: seq<V>)
    requires ValidMap(m)
    ensures |r| == |m.keys|
    ensures forall i :: 0 <= i < |r| ==> r[i] == m.entries[m.keys[i]]
  {
    seq(|m.keys|, i requires 0 <= i < |m.keys| && m.keys[i] in m.entries => m.entries[m.keys[i]])
  }
}
