/**
 * The part of PHP's runtime the exporter leans on: decoded values, ordered arrays with
 * integer or string keys, `array_merge`, `empty()`, `is_numeric()`, `explode`/`implode`
 * and the decimal form of integers.
 */
module Php {

  datatype Option<T> = None | Some(value: T)

  /** An array key after PHP's key normalisation: the string "12" is stored as the integer 12. */
  datatype Key = IntKey(n: int) | StrKey(s: string)

  /** A decoded JSON document as PHP holds it. An array is an ordered list of keyed entries. */
  datatype Value =
    | Null
    | Bool(b: bool)
    | Int(i: int)
    | Str(s: string)
    | Arr(entries: seq<(Key, Value)>)

  /** Errors that PHP raises and nothing in the exporter catches. */
  datatype Fault = TypeError | UndefinedFunction(name: string)

  /** The result of a computation that may end in an uncaught error. */
  datatype Outcome<T> = Ok(value: T) | Fatal(fault: Fault)

  const INT_MAX: int := 0x7fff_ffff_ffff_ffff
  const INT_MIN: int := -0x8000_0000_0000_0000

  // ---------------------------------------------------------------------------------------
  // Arrays

  function KeysOf<T>(a: seq<(Key, T)>): seq<Key> {
    seq(|a|, i requires 0 <= i < |a| => a[i].0)
  }

  function ValuesOf<T>(a: seq<(Key, T)>): seq<T> {
    seq(|a|, i requires 0 <= i < |a| => a[i].1)
  }

  /** Every PHP array has pairwise distinct keys. */
  predicate DistinctKeys<T>(a: seq<(Key, T)>) {
    forall i, j :: 0 <= i < j < |a| ==> a[i].0 != a[j].0
  }

  /** Position of the entry stored under `k`, or -1 when there is none. */
  function IndexOf<T>(a: seq<(Key, T)>, k: Key): (i: int)
    ensures -1 <= i < |a|
    ensures 0 <= i ==> a[i].0 == k && forall j :: 0 <= j < i ==> a[j].0 != k
    ensures i < 0 ==> forall j :: 0 <= j < |a| ==> a[j].0 != k
  {
    if a == [] then -1
    else if a[0].0 == k then 0
    else
      var r := IndexOf(a[1..], k);
      if r < 0 then -1 else r + 1
  }

  /** `$a[$k] ?? null`, without the null: the value stored under `k`, if any. */
  function Get<T>(a: seq<(Key, T)>, k: Key): Option<T> {
    var i := IndexOf(a, k);
    if i < 0 then None else Some(a[i].1)
  }

  /** The assignment `$a[$k] = $v`: an existing key keeps its position, a new key goes last. */
  function Set<T>(a: seq<(Key, T)>, k: Key, v: T): (r: seq<(Key, T)>)
    ensures Get(r, k) == Some(v)
    ensures forall k' :: k' != k ==> Get(r, k') == Get(a, k')
    ensures KeysOf(r) == if k in KeysOf(a) then KeysOf(a) else KeysOf(a) + [k]
    ensures DistinctKeys(a) ==> DistinctKeys(r)
    ensures k !in KeysOf(a) ==> r == a + [(k, v)]
  {
    var i := IndexOf(a, k);
    if i < 0 then
      var r := a + [(k, v)];
      assert IndexOf(r, k) == |a| by { IndexOfUnique(r, k, |a|); }
      forall k' | k' != k ensures Get(r, k') == Get(a, k') {
        var j := IndexOf(a, k');
        if 0 <= j { IndexOfUnique(r, k', j); } else { assert IndexOf(r, k') < 0; }
      }
      assert k !in KeysOf(a);
      assert KeysOf(r) == KeysOf(a) + [k];
      r
    else
      var r := a[i := (k, v)];
      assert IndexOf(r, k) == i by { IndexOfUnique(r, k, i); }
      forall k' | k' != k ensures Get(r, k') == Get(a, k') {
        var j := IndexOf(a, k');
        if 0 <= j { IndexOfUnique(r, k', j); } else { assert IndexOf(r, k') < 0; }
      }
      assert KeysOf(a)[i] == k;
      assert KeysOf(r) == KeysOf(a);
      r
  }

  /** The first entry carrying `k` is the one IndexOf finds. */
  lemma IndexOfUnique<T>(a: seq<(Key, T)>, k: Key, i: int)
    requires 0 <= i < |a| && a[i].0 == k
    requires forall j :: 0 <= j < i ==> a[j].0 != k
    ensures IndexOf(a, k) == i
  {
  }

  /** In an array with distinct keys, the value found under a key is the one stored there. */
  lemma GetDistinct<T>(a: seq<(Key, T)>, i: int)
    requires DistinctKeys(a) && 0 <= i < |a|
    ensures Get(a, a[i].0) == Some(a[i].1)
  {
    IndexOfUnique(a, a[i].0, i);
  }

  lemma GetAppend<T>(a: seq<(Key, T)>, e: (Key, T), k: Key)
    ensures Get(a + [e], k) == if k in KeysOf(a) then Get(a, k) else if e.0 == k then Some(e.1) else None
  {
    var r := a + [e];
    var i := IndexOf(a, k);
    if 0 <= i {
      IndexOfUnique(r, k, i);
      assert k in KeysOf(a) by { assert KeysOf(a)[i] == k; }
    } else {
      assert k !in KeysOf(a);
      if e.0 == k { IndexOfUnique(r, k, |a|); } else { assert IndexOf(r, k) < 0; }
    }
  }

  lemma GetIffKey<T>(a: seq<(Key, T)>, k: Key)
    ensures Get(a, k).Some? <==> k in KeysOf(a)
  {
    if k in KeysOf(a) {
      var j :| 0 <= j < |a| && KeysOf(a)[j] == k;
      assert a[j].0 == k;
    }
    if Get(a, k).Some? {
      assert KeysOf(a)[IndexOf(a, k)] == k;
    }
  }

  // ---------------------------------------------------------------------------------------
  // array_merge

  /** How many entries of `a` have an integer key. */
  function CountIntKeys<T>(a: seq<(Key, T)>): nat {
    if a == [] then 0 else CountIntKeys(a[..|a| - 1]) + (if a[|a| - 1].0.IntKey? then 1 else 0)
  }

  /** The integer keys of an array built by `array_merge` are 0, 1, ... in order of arrival. */
  predicate Numbered<T>(a: seq<(Key, T)>) {
    forall i :: 0 <= i < |a| && a[i].0.IntKey? ==> 0 <= a[i].0.n < CountIntKeys(a)
  }

  /** One entry of `array_merge`'s copy loop: an integer key is appended under the next free
      index, a string key overwrites in place or is appended. */
  function Put<T>(dest: seq<(Key, T)>, e: (Key, T)): seq<(Key, T)> {
    if e.0.IntKey? then dest + [(IntKey(CountIntKeys(dest)), e.1)] else Set(dest, e.0, e.1)
  }

  /** The copy loop of `array_merge` run over `xs`, starting from `dest`. */
  function MergeInto<T>(dest: seq<(Key, T)>, xs: seq<(Key, T)>): seq<(Key, T)> {
    if xs == [] then dest else Put(MergeInto(dest, xs[..|xs| - 1]), xs[|xs| - 1])
  }

  /** `array_merge($a, $b)`: every entry with an integer key is kept, renumbered, and a string
      key present in both arrays is stored once. */
  function ArrayMerge<T>(a: seq<(Key, T)>, b: seq<(Key, T)>): seq<(Key, T)> {
    MergeInto(MergeInto([], a), b)
  }

  /** `array_merge` keeps every integer-keyed entry of both arrays and adds no entry. */
  lemma ArrayMergeCount<T>(a: seq<(Key, T)>, b: seq<(Key, T)>)
    ensures CountIntKeys(ArrayMerge(a, b)) == CountIntKeys(a) + CountIntKeys(b)
    ensures |ArrayMerge(a, b)| <= |a| + |b|
  {
    MergeIntoCount([], a);
    MergeIntoCount(MergeInto([], a), b);
  }

  /** Only the keys of an array decide how many of them are integers. */
  lemma {:induction false} CountIntKeysOfKeys<T>(a: seq<(Key, T)>, b: seq<(Key, T)>)
    requires KeysOf(a) == KeysOf(b)
    ensures CountIntKeys(a) == CountIntKeys(b)
    decreases |a|
  {
    if a != [] {
      var n := |a| - 1;
      assert |b| == |KeysOf(b)| == |KeysOf(a)| == |a|;
      assert a[n].0 == KeysOf(a)[n] == KeysOf(b)[n] == b[n].0;
      assert KeysOf(a[..n]) == KeysOf(a)[..n] == KeysOf(b)[..n] == KeysOf(b[..n]);
      CountIntKeysOfKeys(a[..n], b[..n]);
    }
  }

  /** One copied entry adds one integer key when its key is an integer, and at most one entry. */
  lemma PutCount<T>(dest: seq<(Key, T)>, e: (Key, T))
    ensures CountIntKeys(Put(dest, e)) == CountIntKeys(dest) + (if e.0.IntKey? then 1 else 0)
    ensures |Put(dest, e)| <= |dest| + 1
  {
    if e.0.IntKey? {
      CountIntKeysAppend(dest, (IntKey(CountIntKeys(dest)), e.1));
    } else if e.0 in KeysOf(dest) {
      CountIntKeysOfKeys(Put(dest, e), dest);
    } else {
      CountIntKeysAppend(dest, e);
    }
  }

  lemma {:induction false} MergeIntoCount<T>(dest: seq<(Key, T)>, xs: seq<(Key, T)>)
    ensures CountIntKeys(MergeInto(dest, xs)) == CountIntKeys(dest) + CountIntKeys(xs)
    ensures |MergeInto(dest, xs)| <= |dest| + |xs|
    decreases |xs|
  {
    if xs != [] {
      MergeIntoCount(dest, xs[..|xs| - 1]);
      PutCount(MergeInto(dest, xs[..|xs| - 1]), xs[|xs| - 1]);
    }
  }

  lemma CountIntKeysAppend<T>(a: seq<(Key, T)>, e: (Key, T))
    ensures CountIntKeys(a + [e]) == CountIntKeys(a) + (if e.0.IntKey? then 1 else 0)
  {
    assert (a + [e])[..|a|] == a;
  }

  lemma {:induction false} CountIntKeysUpdate<T>(a: seq<(Key, T)>, i: int, e: (Key, T))
    requires 0 <= i < |a| && a[i].0.StrKey? && e.0.StrKey?
    ensures CountIntKeys(a[i := e]) == CountIntKeys(a)
  {
    var n := |a| - 1;
    if i == n {
      assert a[i := e][..n] == a[..n];
    } else {
      assert a[i := e][..n] == a[..n][i := e];
      CountIntKeysUpdate(a[..n], i, e);
    }
  }

  lemma PutWellFormed<T>(dest: seq<(Key, T)>, e: (Key, T))
    requires DistinctKeys(dest) && Numbered(dest)
    ensures DistinctKeys(Put(dest, e)) && Numbered(Put(dest, e))
    ensures CountIntKeys(Put(dest, e)) == CountIntKeys(dest) + (if e.0.IntKey? then 1 else 0)
  {
    var c := CountIntKeys(dest);
    if e.0.IntKey? {
      var r := dest + [(IntKey(c), e.1)];
      CountIntKeysAppend(dest, (IntKey(c), e.1));
      assert forall i :: 0 <= i < |dest| ==> r[i] == dest[i];
    } else {
      var i := IndexOf(dest, e.0);
      if i < 0 {
        CountIntKeysAppend(dest, e);
      } else {
        CountIntKeysUpdate(dest, i, e);
        assert Put(dest, e) == dest[i := e];
      }
    }
  }

  lemma {:induction false} MergeIntoWellFormed<T>(dest: seq<(Key, T)>, xs: seq<(Key, T)>)
    requires DistinctKeys(dest) && Numbered(dest)
    ensures DistinctKeys(MergeInto(dest, xs)) && Numbered(MergeInto(dest, xs))
  {
    if xs != [] {
      MergeIntoWellFormed(dest, xs[..|xs| - 1]);
      PutWellFormed(MergeInto(dest, xs[..|xs| - 1]), xs[|xs| - 1]);
    }
  }

  /** Whatever it is given, `array_merge` returns an array whose keys are distinct and whose
      integer keys are numbered from 0 in order. */
  lemma ArrayMergeWellFormed<T>(a: seq<(Key, T)>, b: seq<(Key, T)>)
    ensures DistinctKeys(ArrayMerge(a, b)) && Numbered(ArrayMerge(a, b))
  {
    MergeIntoWellFormed([], a);
    MergeIntoWellFormed(MergeInto([], a), b);
  }

  /** Merging never moves or drops a key that is already there: new keys are appended. */
  lemma {:induction false} MergeIntoKeepsKeys<T>(dest: seq<(Key, T)>, xs: seq<(Key, T)>)
    ensures |dest| <= |MergeInto(dest, xs)|
    ensures KeysOf(MergeInto(dest, xs))[..|dest|] == KeysOf(dest)
  {
    if xs != [] {
      var m := MergeInto(dest, xs[..|xs| - 1]);
      MergeIntoKeepsKeys(dest, xs[..|xs| - 1]);
      var e := xs[|xs| - 1];
      if e.0.IntKey? {
        assert KeysOf(Put(m, e)) == KeysOf(m) + [IntKey(CountIntKeys(m))];
      }
      assert KeysOf(Put(m, e))[..|m|] == KeysOf(m);
      assert KeysOf(Put(m, e))[..|dest|] == KeysOf(m)[..|dest|];
    }
  }

  /** What one copy step of `array_merge` does to a string key. */
  lemma PutGetString<T>(m: seq<(Key, T)>, e: (Key, T), s: string)
    ensures Get(Put(m, e), StrKey(s)) == if e.0 == StrKey(s) then Some(e.1) else Get(m, StrKey(s))
  {
    if e.0.IntKey? {
      GetAppend(m, (IntKey(CountIntKeys(m)), e.1), StrKey(s));
      GetIffKey(m, StrKey(s));
    }
  }

  /** Lookup in `p + [e]` when the keys are distinct. */
  lemma GetLastDistinct<T>(p: seq<(Key, T)>, e: (Key, T), k: Key)
    requires DistinctKeys(p + [e])
    ensures k in KeysOf(p + [e]) <==> k in KeysOf(p) || e.0 == k
    ensures Get(p + [e], k) == if e.0 == k then Some(e.1) else Get(p, k)
  {
    var xs := p + [e];
    assert KeysOf(xs) == KeysOf(p) + [e.0];
    GetAppend(p, e, k);
    GetIffKey(p, k);
    forall j | 0 <= j < |p| ensures KeysOf(p)[j] != e.0 {
      assert xs[j].0 != xs[|p|].0;
    }
  }

  /** A string key merged in last wins; a string key the merged array lacks keeps its value. */
  lemma {:induction false} MergeIntoGetString<T>(dest: seq<(Key, T)>, xs: seq<(Key, T)>, s: string)
    requires DistinctKeys(xs)
    ensures Get(MergeInto(dest, xs), StrKey(s))
         == if StrKey(s) in KeysOf(xs) then Get(xs, StrKey(s)) else Get(dest, StrKey(s))
  {
    if xs != [] {
      var p := xs[..|xs| - 1];
      var e := xs[|xs| - 1];
      assert xs == p + [e];
      assert DistinctKeys(p);
      MergeIntoGetString(dest, p, s);
      PutGetString(MergeInto(dest, p), e, s);
      GetLastDistinct(p, e, StrKey(s));
    }
  }

  /** `array_merge` on string keys: the second array's value wins, the first fills the gaps. */
  lemma ArrayMergeGetString<T>(a: seq<(Key, T)>, b: seq<(Key, T)>, s: string)
    requires DistinctKeys(a) && DistinctKeys(b)
    ensures Get(ArrayMerge(a, b), StrKey(s))
         == if StrKey(s) in KeysOf(b) then Get(b, StrKey(s)) else Get(a, StrKey(s))
  {
    MergeIntoGetString([], a, s);
    MergeIntoGetString(MergeInto([], a), b, s);
    if StrKey(s) !in KeysOf(a) {
      GetIffKey(a, StrKey(s));
    }
  }

  predicate IsList<T>(xs: seq<(Key, T)>) {
    forall i :: 0 <= i < |xs| ==> xs[i].0.IntKey?
  }

  /** The entries of `xs` renumbered from `c`. */
  function Renumber<T>(xs: seq<(Key, T)>, c: int): seq<(Key, T)> {
    seq(|xs|, i requires 0 <= i < |xs| => (IntKey(c + i), xs[i].1))
  }

  /** Merging a list appends its values, in order, under fresh indexes. */
  lemma {:induction false} MergeIntoList<T>(dest: seq<(Key, T)>, xs: seq<(Key, T)>)
    requires IsList(xs)
    ensures MergeInto(dest, xs) == dest + Renumber(xs, CountIntKeys(dest))
    ensures CountIntKeys(MergeInto(dest, xs)) == CountIntKeys(dest) + |xs|
  {
    MergeIntoListCount(dest, xs);
    if xs != [] {
      var p := xs[..|xs| - 1];
      var e := xs[|xs| - 1];
      var c := CountIntKeys(dest);
      ListPrefix(xs);
      MergeIntoList(dest, p);
      var m := MergeInto(dest, p);
      PutInt(m, e);
      RenumberSnoc(xs, c);
      var r := Renumber(p, c);
      assert (dest + r) + [(IntKey(c + |p|), e.1)] == dest + (r + [(IntKey(c + |p|), e.1)]);
    }
  }

  lemma {:induction false} MergeIntoListCount<T>(dest: seq<(Key, T)>, xs: seq<(Key, T)>)
    requires IsList(xs)
    ensures CountIntKeys(MergeInto(dest, xs)) == CountIntKeys(dest) + |xs|
  {
    if xs != [] {
      ListPrefix(xs);
      MergeIntoListCount(dest, xs[..|xs| - 1]);
      PutInt(MergeInto(dest, xs[..|xs| - 1]), xs[|xs| - 1]);
    }
  }

  lemma ListPrefix<T>(xs: seq<(Key, T)>)
    requires IsList(xs) && xs != []
    ensures IsList(xs[..|xs| - 1]) && xs[|xs| - 1].0.IntKey?
  {
    var p := xs[..|xs| - 1];
    forall i | 0 <= i < |p| ensures p[i].0.IntKey? { assert p[i] == xs[i]; }
  }

  lemma PutInt<T>(m: seq<(Key, T)>, e: (Key, T))
    requires e.0.IntKey?
    ensures Put(m, e) == m + [(IntKey(CountIntKeys(m)), e.1)]
    ensures CountIntKeys(Put(m, e)) == CountIntKeys(m) + 1
  {
    CountIntKeysAppend(m, (IntKey(CountIntKeys(m)), e.1));
  }

  lemma RenumberSnoc<T>(xs: seq<(Key, T)>, c: int)
    requires xs != []
    ensures Renumber(xs, c)
         == Renumber(xs[..|xs| - 1], c) + [(IntKey(c + |xs| - 1), xs[|xs| - 1].1)]
  {
    var p := xs[..|xs| - 1];
    var lhs := Renumber(xs, c);
    var rhs := Renumber(p, c) + [(IntKey(c + |p|), xs[|xs| - 1].1)];
    forall i | 0 <= i < |lhs| ensures lhs[i] == rhs[i] {
      if i < |p| { assert xs[i] == p[i]; }
    }
  }

  lemma RenumberConcat<T>(a: seq<(Key, T)>, b: seq<(Key, T)>)
    ensures Renumber(a, 0) + Renumber(b, |a|) == Renumber(a + b, 0)
  {
    var r := Renumber(a, 0) + Renumber(b, |a|);
    var whole := Renumber(a + b, 0);
    forall i | 0 <= i < |a| + |b| ensures r[i] == whole[i] {
      if i >= |a| { assert (a + b)[i] == b[i - |a|]; }
    }
  }

  lemma ValuesOfRenumber<T>(xs: seq<(Key, T)>)
    ensures ValuesOf(Renumber(xs, 0)) == ValuesOf(xs)
  {
  }

  lemma ValuesOfConcat<T>(a: seq<(Key, T)>, b: seq<(Key, T)>)
    ensures ValuesOf(a + b) == ValuesOf(a) + ValuesOf(b)
  {
    forall i | 0 <= i < |a| + |b| ensures ValuesOf(a + b)[i] == (ValuesOf(a) + ValuesOf(b))[i] {
      if i >= |a| { assert (a + b)[i] == b[i - |a|]; }
    }
  }

  /** Merging two lists concatenates their values and numbers them from 0. */
  lemma ArrayMergeLists<T>(a: seq<(Key, T)>, b: seq<(Key, T)>)
    requires IsList(a) && IsList(b)
    ensures ArrayMerge(a, b) == Renumber(a + b, 0)
    ensures ValuesOf(ArrayMerge(a, b)) == ValuesOf(a) + ValuesOf(b)
  {
    MergeIntoList([], a);
    var m := Renumber(a, 0);
    assert MergeInto([], a) == m;
    MergeIntoList(m, b);
    RenumberConcat(a, b);
    ValuesOfRenumber(a + b);
    ValuesOfConcat(a, b);
  }

  /** Renumbering ignores the keys it replaces. */
  lemma RenumberAfterRenumber<T>(a: seq<(Key, T)>, b: seq<(Key, T)>)
    ensures Renumber(Renumber(a, 0) + b, 0) == Renumber(a + b, 0)
  {
    var l := Renumber(Renumber(a, 0) + b, 0);
    var r := Renumber(a + b, 0);
    forall i | 0 <= i < |l| ensures l[i] == r[i] {
      if i < |a| {
        assert (Renumber(a, 0) + b)[i] == Renumber(a, 0)[i];
      } else {
        assert (Renumber(a, 0) + b)[i] == b[i - |a|] == (a + b)[i];
      }
    }
  }

  /** Two lists merged in turn, where merging an empty one is skipped, end up appended and
      numbered from 0. */
  lemma SpliceTwo<T>(a: seq<(Key, T)>, b: seq<(Key, T)>)
    requires IsList(a) && IsList(b)
    ensures var d1 := if a == [] then [] else ArrayMerge([], a);
            (if b == [] then d1 else ArrayMerge(d1, b)) == Renumber(a + b, 0)
  {
    ArrayMergeLists([], a);
    assert [] + a == a;
    var d1 := if a == [] then [] else ArrayMerge([], a);
    assert d1 == Renumber(a, 0);
    ArrayMergeLists(d1, b);
    RenumberAfterRenumber(a, b);
    if b == [] {
      assert a + b == a;
    }
  }

  /** The last key of an array is not among the keys before it. */
  lemma LastKeyFresh<T>(p: seq<(Key, T)>, e: (Key, T))
    requires DistinctKeys(p + [e])
    ensures e.0 !in KeysOf(p) && Get(p, e.0) == None
  {
    forall j | 0 <= j < |p| ensures KeysOf(p)[j] != e.0 {
      assert (p + [e])[j].0 != (p + [e])[|p|].0;
    }
    GetIffKey(p, e.0);
  }

  /** Merging string-keyed entries whose keys are all new appends them unchanged. */
  lemma {:induction false} MergeIntoFresh<T>(dest: seq<(Key, T)>, xs: seq<(Key, T)>)
    requires forall i :: 0 <= i < |xs| ==> xs[i].0.StrKey?
    requires DistinctKeys(dest + xs)
    ensures MergeInto(dest, xs) == dest + xs
  {
    if xs != [] {
      var p := xs[..|xs| - 1];
      var e := xs[|xs| - 1];
      assert dest + xs == (dest + p) + [e];
      assert DistinctKeys(dest + p) by {
        forall i, j | 0 <= i < j < |dest + p| ensures (dest + p)[i].0 != (dest + p)[j].0 {
          assert (dest + p)[i] == (dest + xs)[i] && (dest + p)[j] == (dest + xs)[j];
        }
      }
      MergeIntoFresh(dest, p);
      LastKeyFresh(dest + p, e);
    }
  }

  /** Every key is a string that starts with a letter or an underscore. */
  predicate WordKeyed<T>(a: seq<(Key, T)>) {
    forall k :: k in KeysOf(a) ==> k.StrKey? && IsWord(k.s)
  }

  /** Merging word-keyed arrays gives a word-keyed array. */
  lemma {:induction false} MergeIntoWordKeyed<T>(dest: seq<(Key, T)>, xs: seq<(Key, T)>)
    requires WordKeyed(dest) && WordKeyed(xs)
    ensures WordKeyed(MergeInto(dest, xs))
  {
    if xs != [] {
      var p := xs[..|xs| - 1];
      var e := xs[|xs| - 1];
      assert KeysOf(xs) == KeysOf(p) + [e.0];
      MergeIntoWordKeyed(dest, p);
      assert e.0.StrKey?;
    }
  }

  lemma ArrayMergeWordKeyed<T>(a: seq<(Key, T)>, b: seq<(Key, T)>)
    requires WordKeyed(a) && WordKeyed(b)
    ensures WordKeyed(ArrayMerge(a, b))
  {
    assert KeysOf<T>([]) == [];
    MergeIntoWordKeyed([], a);
    MergeIntoWordKeyed(MergeInto([], a), b);
  }

  /** `array_merge` with a non-empty second array is never empty. */
  lemma ArrayMergeNonEmpty<T>(a: seq<(Key, T)>, b: seq<(Key, T)>)
    requires b != []
    ensures ArrayMerge(a, b) != []
  {
    var m := MergeInto(MergeInto([], a), b[..|b| - 1]);
    var e := b[|b| - 1];
    if e.0.StrKey? {
      assert Get(Put(m, e), e.0) == Some(e.1);
    }
  }

  // ---------------------------------------------------------------------------------------
  // empty(), is_numeric() and key normalisation

  /** `empty($v)`, which is also PHP's notion of a falsy value. */
  predicate IsEmpty(v: Value) {
    match v
    case Null => true
    case Bool(b) => !b
    case Int(i) => i == 0
    case Str(s) => s == "" || s == "0"
    case Arr(es) => es == []
  }

  /** The falsy values are exactly null, false, 0, "", "0" and the empty array. */
  lemma FalsyValues(v: Value)
    ensures IsEmpty(v) <==> v in {Null, Bool(false), Int(0), Str(""), Str("0"), Arr([])}
  {
  }

  predicate IsDigit(c: char) { '0' <= c <= '9' }

  predicate AllDigits(s: string) { forall i :: 0 <= i < |s| ==> IsDigit(s[i]) }

  /** The characters PHP skips around a numeric string: space, \t, \n, \r, \v and \f. */
  predicate IsSpace(c: char) { c == ' ' || c == '\t' || c == '\n' || c == '\r' || c as int == 11 || c as int == 12 }

  function LeadingSpaces(s: string): (n: nat)
    ensures n <= |s| && (n < |s| ==> !IsSpace(s[n]))
  {
    if s == [] || !IsSpace(s[0]) then 0 else 1 + LeadingSpaces(s[1..])
  }

  function TrimRight(s: string): (t: string)
    ensures |t| <= |s| && t == s[..|t|]
  {
    if s != [] && IsSpace(s[|s| - 1]) then TrimRight(s[..|s| - 1]) else s
  }

  /** Where `is_numeric` stands while it reads a string from left to right. */
  datatype NumberScan =
    | Lead            // leading whitespace
    | Sign            // after a sign
    | Whole           // in the digits before a point
    | Point           // after a point with no digit before it
    | Fraction        // after the point of a number that has a digit
    | Exponent        // after the 'e'
    | ExponentSign    // after the sign of the exponent
    | ExponentDigits  // in the digits of the exponent
    | Trail           // trailing whitespace after a complete number

  /** One character read in a state: the next state, or nothing when the string is rejected. */
  function NextScan(state: NumberScan, c: char): Option<NumberScan> {
    match state
    case Lead =>
      if IsSpace(c) then Some(Lead) else if c == '+' || c == '-' then Some(Sign)
      else if IsDigit(c) then Some(Whole) else if c == '.' then Some(Point) else None
    case Sign =>
      if IsDigit(c) then Some(Whole) else if c == '.' then Some(Point) else None
    case Whole =>
      if IsDigit(c) then Some(Whole) else if c == '.' then Some(Fraction)
      else if c == 'e' || c == 'E' then Some(Exponent) else if IsSpace(c) then Some(Trail) else None
    case Point =>
      if IsDigit(c) then Some(Fraction) else None
    case Fraction =>
      if IsDigit(c) then Some(Fraction) else if c == 'e' || c == 'E' then Some(Exponent)
      else if IsSpace(c) then Some(Trail) else None
    case Exponent =>
      if c == '+' || c == '-' then Some(ExponentSign) else if IsDigit(c) then Some(ExponentDigits) else None
    case ExponentSign =>
      if IsDigit(c) then Some(ExponentDigits) else None
    case ExponentDigits =>
      if IsDigit(c) then Some(ExponentDigits) else if IsSpace(c) then Some(Trail) else None
    case Trail =>
      if IsSpace(c) then Some(Trail) else None
  }

  /** The states in which the string read so far is a complete number. */
  predicate Accepting(state: NumberScan) {
    state.Whole? || state.Fraction? || state.ExponentDigits? || state.Trail?
  }

  /** Reading `s` from `state` ends in an accepting state. */
  predicate Scans(s: string, state: NumberScan) {
    if s == [] then Accepting(state)
    else
      match NextScan(state, s[0])
      case None => false
      case Some(next) => Scans(s[1..], next)
  }

  /** `is_numeric($s)` for a string (PHP 8): optional whitespace, an optional sign, digits with
      an optional fraction (or a fraction alone), an optional exponent, optional whitespace. */
  predicate IsNumericString(s: string)
    ensures IsCanonicalInt(s) ==> IsNumericString(s)
  {
    CanonicalScans(s);
    Scans(s, Lead)
  }

  /** Digits read in the digit state keep it there. */
  lemma {:induction false} DigitsScan(s: string)
    requires AllDigits(s)
    ensures Scans(s, Whole)
    decreases |s|
  {
    if s != [] {
      DigitsScan(s[1..]);
    }
  }

  /** The strings PHP turns into integer keys pass `is_numeric`. */
  lemma CanonicalScans(s: string)
    ensures IsCanonicalInt(s) ==> Scans(s, Lead)
  {
    if IsCanonicalInt(s) {
      var digits := if s[0] == '-' then s[1..] else s;
      DigitsScan(digits[1..]);
      if s[0] == '-' {
        assert s[1..][1..] == digits[1..];
      }
    }
  }

  /** A string that starts with a letter or an underscore is neither numeric nor read as an
      integer key. */
  predicate IsWord(s: string) {
    s != [] && ('a' <= s[0] <= 'z' || 'A' <= s[0] <= 'Z' || s[0] == '_')
  }

  lemma WordKey(s: string)
    requires IsWord(s)
    ensures !IsNumericString(s) && NormalizeKey(s) == StrKey(s)
  {
  }

  /** `is_numeric($key)` for an array key. */
  predicate IsNumericKey(k: Key) {
    k.IntKey? || IsNumericString(k.s)
  }

  function DigitValue(c: char): int requires IsDigit(c) { c as int - '0' as int }

  function DigitChar(d: int): char requires 0 <= d < 10 { ('0' as int + d) as char }

  /** The number a string of decimal digits denotes. */
  function DigitsValue(s: string): nat
    requires AllDigits(s)
  {
    if s == [] then 0 else DigitsValue(s[..|s| - 1]) * 10 + DigitValue(s[|s| - 1])
  }

  /** The decimal digits of a natural number, without leading zeros. */
  function Decimal(n: nat): (s: string)
    ensures s != [] && AllDigits(s)
  {
    if n < 10 then [DigitChar(n)] else Decimal(n / 10) + [DigitChar(n % 10)]
  }

  /** `(string) $i`. */
  function IntToString(i: int): string {
    if i < 0 then "-" + Decimal(-i) else Decimal(i)
  }

  lemma {:induction false} DecimalRoundTrip(n: nat)
    ensures DigitsValue(Decimal(n)) == n
    ensures Decimal(n)[0] != '0' || n == 0
  {
    if n >= 10 {
      DecimalRoundTrip(n / 10);
      var s := Decimal(n / 10) + [DigitChar(n % 10)];
      assert s[..|s| - 1] == Decimal(n / 10);
    }
  }

  /** Strings PHP turns into integer keys: "0", or an optional minus and digits without a
      leading zero, within the 64-bit range. */
  predicate IsCanonicalInt(s: string) {
    var digits := if s != [] && s[0] == '-' then s[1..] else s;
    && digits != []
    && AllDigits(digits)
    && (digits[0] != '0' || s == "0")
    && (if s[0] == '-' then 0 - DigitsValue(digits) >= INT_MIN else DigitsValue(digits) <= INT_MAX)
  }

  function CanonicalIntValue(s: string): int
    requires IsCanonicalInt(s)
  {
    if s[0] == '-' then 0 - DigitsValue(s[1..]) else DigitsValue(s)
  }

  /** The key `$a[$s]` reads or writes: an integer only when `s` is exactly that integer's
      decimal text. */
  function NormalizeKey(s: string): (k: Key)
    ensures k.IntKey? ==> IntToString(k.n) == s && INT_MIN <= k.n <= INT_MAX
    ensures k.StrKey? ==> k.s == s
  {
    if IsCanonicalInt(s) then
      DigitsDecimal(if s[0] == '-' then s[1..] else s);
      IntKey(CanonicalIntValue(s))
    else StrKey(s)
  }

  /** Digits without a leading zero are the decimal text of the number they denote. */
  lemma {:induction false} DigitsDecimal(s: string)
    requires s != [] && AllDigits(s) && (s[0] != '0' || s == "0")
    ensures Decimal(DigitsValue(s)) == s
    decreases |s|
  {
    var n := |s| - 1;
    if n > 0 {
      var init := s[..n];
      DigitsDecimal(init);
      DigitsAtLeastFirst(init);
      assert DigitsValue(s) / 10 == DigitsValue(init) && DigitsValue(s) % 10 == DigitValue(s[n]);
      assert DigitChar(DigitValue(s[n])) == s[n];
      assert s == init + [s[n]];
    }
  }

  /** A string of digits denotes at least its first digit. */
  lemma {:induction false} DigitsAtLeastFirst(s: string)
    requires s != [] && AllDigits(s)
    ensures DigitsValue(s) >= DigitValue(s[0])
    decreases |s|
  {
    if |s| > 1 {
      DigitsAtLeastFirst(s[..|s| - 1]);
    }
  }

  /** The decimal text of every integer of the 64-bit range is stored as that integer, so a
      key is read back as the integer it was written from. */
  lemma NormalizeKeyRoundTrip(i: int)
    requires INT_MIN <= i <= INT_MAX
    ensures NormalizeKey(IntToString(i)) == IntKey(i)
  {
    var n := if i < 0 then -i else i;
    DecimalRoundTrip(n);
    var s := IntToString(i);
    if i < 0 {
      assert s[1..] == Decimal(n);
    }
    assert IsCanonicalInt(s);
  }

  /** The text of a numeric string PHP reads as an integer: surrounding whitespace and an
      optional sign removed. */
  function IntegerBody(s: string): string {
    var t := TrimRight(s[LeadingSpaces(s)..]);
    if t != [] && t[0] in {'+', '-'} then t[1..] else t
  }

  function IntegerSign(s: string): int {
    var t := TrimRight(s[LeadingSpaces(s)..]);
    if t != [] && t[0] == '-' then -1 else 1
  }

  /** A numeric string whose value is an integer of the 64-bit range: optional whitespace
      around an optional sign and decimal digits. */
  predicate IsIntegerString(s: string) {
    var body := IntegerBody(s);
    body != [] && AllDigits(body) && INT_MIN <= IntegerSign(s) * DigitsValue(body) <= INT_MAX
  }

  function IntegerStringValue(s: string): int
    requires IsIntegerString(s)
  {
    IntegerSign(s) * DigitsValue(IntegerBody(s))
  }

  function Pow10(k: nat): nat {
    if k == 0 then 1 else 10 * Pow10(k - 1)
  }

  /** A natural number has at most `k` decimal digits exactly when it is below 10^k. */
  lemma {:induction false} DecimalLength(n: nat, k: nat)
    requires k >= 1
    ensures |Decimal(n)| <= k <==> n < Pow10(k)
  {
    if n >= 10 {
      if k == 1 {
        assert Pow10(1) == 10;
      } else {
        DecimalLength(n / 10, k - 1);
        assert n / 10 < Pow10(k - 1) <==> n < 10 * Pow10(k - 1);
      }
    } else {
      Pow10Positive(k);
    }
  }

  lemma {:induction false} Pow10Positive(k: nat)
    ensures Pow10(k) >= 1
    ensures k >= 1 ==> Pow10(k) >= 10
  {
    if k > 0 { Pow10Positive(k - 1); }
  }

  // ---------------------------------------------------------------------------------------
  // explode / implode

  /** `explode($d, $s)` for a one-character delimiter. */
  function Explode(s: string, d: char): (parts: seq<string>)
    ensures |parts| >= 1
    ensures |parts| >= 2 <==> d in s
  {
    if s == [] then [""]
    else
      var rest := Explode(s[1..], d);
      if s[0] == d then [""] + rest else [[s[0]] + rest[0]] + rest[1..]
  }

  /** `implode($d, $parts)` for a one-character glue. */
  function Join(parts: seq<string>, d: char): string {
    if parts == [] then ""
    else if |parts| == 1 then parts[0]
    else parts[0] + [d] + Join(parts[1..], d)
  }

  /** Splitting and gluing back with the same character gives the string back, and no piece
      holds the delimiter. */
  lemma ExplodeJoin(s: string, d: char)
    ensures Join(Explode(s, d), d) == s
    ensures forall i :: 0 <= i < |Explode(s, d)| ==> d !in Explode(s, d)[i]
  {
    ExplodeRoundTrip(s, d);
    ExplodeClean(s, d);
  }

  lemma {:induction false} ExplodeRoundTrip(s: string, d: char)
    ensures Join(Explode(s, d), d) == s
  {
    if s != [] {
      var rest := Explode(s[1..], d);
      ExplodeRoundTrip(s[1..], d);
      if s[0] == d {
        assert Explode(s, d) == [""] + rest;
        assert ([""] + rest)[1..] == rest;
        assert Join([""] + rest, d) == [d] + Join(rest, d);
      } else {
        var parts := Explode(s, d);
        assert parts == [[s[0]] + rest[0]] + rest[1..];
        if |rest| == 1 {
          assert Join(parts, d) == [s[0]] + rest[0];
        } else {
          assert parts[1..] == rest[1..];
          assert Join(rest, d) == rest[0] + [d] + Join(rest[1..], d);
        }
        assert s == [s[0]] + s[1..];
      }
    }
  }

  lemma {:induction false} ExplodeClean(s: string, d: char)
    ensures forall i :: 0 <= i < |Explode(s, d)| ==> d !in Explode(s, d)[i]
  {
    if s != [] {
      var rest := Explode(s[1..], d);
      ExplodeClean(s[1..], d);
      var parts := Explode(s, d);
      if s[0] == d {
        assert parts == [""] + rest;
        forall i | 0 <= i < |parts| ensures d !in parts[i] {
          if i > 0 { assert parts[i] == rest[i - 1]; }
        }
      } else {
        assert parts == [[s[0]] + rest[0]] + rest[1..];
        forall i | 0 <= i < |parts| ensures d !in parts[i] {
          if i > 0 { assert parts[i] == rest[i]; }
        }
      }
    }
  }

  /** A string without the delimiter explodes to itself. */
  lemma {:induction false} ExplodeNoDelimiter(s: string, d: char)
    requires d !in s
    ensures Explode(s, d) == [s]
  {
    if s != [] {
      assert d !in s[1..];
      ExplodeNoDelimiter(s[1..], d);
      assert s == [s[0]] + s[1..];
    }
  }

  /** The text before the first delimiter is the first piece; the rest explodes on its own. */
  lemma {:induction false} ExplodeAtFirst(a: string, d: char, b: string)
    requires d !in a
    ensures Explode(a + [d] + b, d) == [a] + Explode(b, d)
  {
    if a == [] {
      assert [d] + b == a + [d] + b;
      assert ([d] + b)[1..] == b;
    } else {
      assert (a + [d] + b)[1..] == a[1..] + [d] + b;
      assert d !in a[1..];
      ExplodeAtFirst(a[1..], d, b);
      assert a == [a[0]] + a[1..];
    }
  }
}
