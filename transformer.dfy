/**
 * The map-driven transformer of the exporter: a mapping tree names, for each key of the
 * output, a dotted path into the source document (optionally piped through a callback), a
 * nested tree, or nothing; numeric keys splice a fetched array into the current level.
 */
module Mapping {
  import opened Php
  import Callbacks

  /** A value of a mapping tree: `null` (or any other empty value), a path expression such as
      `endpoint.Location.Country` or `event_timestamp|callback`, or a nested tree. */
  datatype Branch = Omit | Path(expr: string) | Nested(entries: seq<(Key, Branch)>)

  type Spec = seq<(Key, Branch)>

  /** `empty($branch)`: null, '', '0' and []. */
  predicate BranchEmpty(b: Branch) {
    match b
    case Omit => true
    case Path(e) => e == "" || e == "0"
    case Nested(es) => es == []
  }

  /** `isset($value) && !(is_array($value) && empty($value))`: the values transform keeps. */
  predicate Stored(v: Value) {
    v != Null && v != Arr([])
  }

  // ---------------------------------------------------------------------------------------
  // fetch

  /** `isset($v[$segment]) ? $v[$segment] : nothing`, for an array or a string offset. */
  function Index(v: Value, segment: string): (r: Option<Value>)
    ensures r.Some? ==> r.value != Null
  {
    match v
    case Arr(es) =>
      (match Get(es, NormalizeKey(segment))
       case Some(x) => if x == Null then None else Some(x)
       case None => None)
    case Str(s) =>
      if IsIntegerString(segment) then
        var k := IntegerStringValue(segment);
        var i := if k < 0 then k + |s| else k;
        if 0 <= i < |s| then Some(Str([s[i]])) else None
      else None
    case _ => None
  }

  /** Descends through `segments` one at a time; nothing as soon as one is missing. */
  function Walk(v: Value, segments: seq<string>): (r: Option<Value>)
    ensures r.Some? && segments != [] ==> Index(v, segments[0]).Some?
    decreases segments
  {
    if segments == [] then Some(v)
    else
      match Index(v, segments[0])
      case None => None
      case Some(x) => Walk(x, segments[1..])
  }

  /** One segment further down. */
  lemma WalkStep(v: Value, segments: seq<string>, i: nat)
    requires i < |segments|
    ensures Walk(v, segments[i..])
         == match Index(v, segments[i]) case None => None case Some(x) => Walk(x, segments[i + 1..])
  {
    assert segments[i..][1..] == segments[i + 1..];
  }

  /** `list($path, $callback) = explode('|', $expr)` when the expression holds a '|'. */
  function SplitCallback(expr: string): (string, Option<string>) {
    if '|' in expr then
      var parts := Explode(expr, '|');
      (parts[0], Some(parts[1]))
    else (expr, None)
  }

  /** What `fetch($obj, $expr)` returns. Only a callback can raise an error, and what an
      expression with a callback gives is null or a string. */
  function FetchSpec(hash: Value -> string, obj: Value, expr: string): (r: Outcome<Value>)
    ensures SplitCallback(expr).1.None? ==> r.Ok?
    ensures r.Ok? && SplitCallback(expr).1.Some? ==> r.value == Null || r.value.Str?
  {
    var (path, callback) := SplitCallback(expr);
    if callback == Some("static") then Ok(Str(path))
    else
      match Walk(obj, Explode(path, '.'))
      case None => Ok(Null)
      case Some(v) => if callback.Some? then Callbacks.Apply(callback.value, v, hash) else Ok(v)
  }

  // ---------------------------------------------------------------------------------------
  // transform

  /** The value a non-empty branch under a non-numeric key produces: a nested tree is
      transformed, a path is fetched. */
  function BranchValue(hash: Value -> string, source: Value, b: Branch): Outcome<Value>
    decreases b, if b.Nested? then |b.entries| + 2 else 0
  {
    match b
    case Omit => Ok(Null)
    case Path(e) => FetchSpec(hash, source, e)
    case Nested(es) =>
      match TransformSpec(hash, source, es)
      case Fatal(f) => Fatal(f)
      case Ok(d) => Ok(Arr(d))
  }

  /** One turn of transform's loop over the entry `key => branch`, on the output so far. */
  function Step(hash: Value -> string, source: Value, dest: seq<(Key, Value)>, key: Key, branch: Branch)
    : (r: Outcome<seq<(Key, Value)>>)
    ensures r.Ok? && DistinctKeys(dest) ==> DistinctKeys(r.value)
    decreases branch, if branch.Nested? then |branch.entries| + 3 else 1
  {
    if BranchEmpty(branch) then Ok(dest)
    else if IsNumericKey(key) then
      if branch.Nested? then Fatal(TypeError)  // fetch() takes a string path
      else
        match FetchSpec(hash, source, branch.expr)
        case Fatal(f) => Fatal(f)
        case Ok(v) =>
          if IsEmpty(v) then Ok(dest)
          else if v.Arr? then ArrayMergeWellFormed(dest, v.entries); Ok(ArrayMerge(dest, v.entries))
          else Fatal(TypeError)  // array_merge() of a non-array
    else
      match BranchValue(hash, source, branch)
      case Fatal(f) => Fatal(f)
      case Ok(v) => Ok(if Stored(v) then Set(dest, key, v) else dest)
  }

  /** The output after the first `n` entries of the tree. */
  function TransformPrefix(hash: Value -> string, source: Value, spec: Spec, n: nat): (r: Outcome<seq<(Key, Value)>>)
    requires n <= |spec|
    ensures r.Ok? ==> DistinctKeys(r.value)
    decreases Nested(spec), n
  {
    if n == 0 then Ok([])
    else
      match TransformPrefix(hash, source, spec, n - 1)
      case Fatal(f) => Fatal(f)
      case Ok(dest) => Step(hash, source, dest, spec[n - 1].0, spec[n - 1].1)
  }

  /** What `transform($source, $spec)` returns: an array, so its keys are distinct. */
  function TransformSpec(hash: Value -> string, source: Value, spec: Spec): (r: Outcome<seq<(Key, Value)>>)
    ensures r.Ok? ==> DistinctKeys(r.value)
    decreases Nested(spec), |spec| + 1
  {
    TransformPrefix(hash, source, spec, |spec|)
  }

  /** The transformer object: its mapping tree (`$map`) and the hash behind the `hash_event` callback. */
  class Transformer {
    var mapping: Spec
    const hash: Value -> string

    constructor (mapping: Spec, hash: Value -> string)
      ensures this.mapping == mapping && this.hash == hash
    {
      this.mapping := mapping;
      this.hash := hash;
    }

    /** `fetch($obj, $path)`. */
    method Fetch(obj: Value, path: string) returns (r: Outcome<Value>)
      ensures r == FetchSpec(hash, obj, path)
    {
      var (p, callback) := SplitCallback(path);
      if callback == Some("static") {
        return Ok(Str(p));
      }
      var segments := Explode(p, '.');
      var value := obj;
      var i := 0;
      while i < |segments|
        invariant 0 <= i <= |segments|
        invariant Walk(obj, segments) == Walk(value, segments[i..])
      {
        WalkStep(value, segments, i);
        var next := Index(value, segments[i]);
        if next.None? {
          return Ok(Null);
        }
        value := next.value;
        i := i + 1;
      }
      if callback.Some? {
        r := Callbacks.Apply(callback.value, value, hash);
      } else {
        r := Ok(value);
      }
    }

    /** `transform($source, $map)`; with no map, the transformer's own. */
    method Transform(source: Value, mapping: Option<Spec>) returns (r: Outcome<seq<(Key, Value)>>)
      ensures r == TransformSpec(hash, source, if mapping.Some? then mapping.value else this.mapping)
      decreases Nested(if mapping.Some? then mapping.value else this.mapping), 0
    {
      var spec := if mapping.Some? then mapping.value else this.mapping;
      var destination: seq<(Key, Value)> := [];
      var i := 0;
      while i < |spec|
        invariant 0 <= i <= |spec|
        invariant TransformPrefix(hash, source, spec, i) == Ok(destination)
      {
        var next := TransformEntry(source, destination, spec[i].0, spec[i].1);
        PrefixNext(hash, source, spec, i);
        if next.Fatal? {
          FatalPersists(hash, source, spec, i + 1, next.fault);
          return Fatal(next.fault);
        }
        destination := next.value;
        i := i + 1;
      }
      return Ok(destination);
    }

    /** The body of transform's loop for the entry `key => branch`. */
    method TransformEntry(source: Value, destination: seq<(Key, Value)>, key: Key, branch: Branch)
      returns (r: Outcome<seq<(Key, Value)>>)
      ensures r == Step(hash, source, destination, key, branch)
      decreases branch, 1
    {
      if BranchEmpty(branch) {
        return Ok(destination);
      } else if IsNumericKey(key) {
        if branch.Nested? {
          return Fatal(TypeError);
        }
        var value := Fetch(source, branch.expr);
        if value.Fatal? {
          return Fatal(value.fault);
        }
        if IsEmpty(value.value) {
          return Ok(destination);
        } else if value.value.Arr? {
          return Ok(ArrayMerge(destination, value.value.entries));
        } else {
          return Fatal(TypeError);
        }
      }
      var value: Value;
      if branch.Nested? {
        var nested := Transform(source, Some(branch.entries));
        if nested.Fatal? {
          return Fatal(nested.fault);
        }
        value := Arr(nested.value);
      } else {
        var fetched := Fetch(source, branch.expr);
        if fetched.Fatal? {
          return Fatal(fetched.fault);
        }
        value := fetched.value;
      }
      if Stored(value) {
        return Ok(Set(destination, key, value));
      }
      return Ok(destination);
    }
  }

  /** One more entry of the tree: the step applied to the output so far. */
  lemma PrefixNext(hash: Value -> string, source: Value, spec: Spec, i: nat)
    requires i < |spec|
    ensures TransformPrefix(hash, source, spec, i).Ok? ==>
              TransformPrefix(hash, source, spec, i + 1)
                == Step(hash, source, TransformPrefix(hash, source, spec, i).value, spec[i].0, spec[i].1)
  {
  }

  /** An error raised by one entry ends the whole transform with that error. */
  lemma {:induction false} FatalPersists(hash: Value -> string, source: Value, spec: Spec, n: nat, f: Fault)
    requires n <= |spec|
    requires TransformPrefix(hash, source, spec, n) == Fatal(f)
    ensures TransformSpec(hash, source, spec) == Fatal(f)
    decreases |spec| - n
  {
    if n < |spec| {
      FatalPersists(hash, source, spec, n + 1, f);
    }
  }

  // ---------------------------------------------------------------------------------------
  // What fetch promises

  /** `X|static` yields `X` itself, whatever the source holds. */
  lemma StaticLiteral(hash: Value -> string, obj: Value, x: string)
    requires '|' !in x
    ensures FetchSpec(hash, obj, x + "|static") == Ok(Str(x))
  {
    assert x + "|static" == x + ['|'] + "static";
    ExplodeAtFirst(x, '|', "static");
    ExplodeNoDelimiter("static", '|');
  }

  /** A path without a callback yields the value at its end, or null when a segment is
      missing. */
  lemma PlainPath(hash: Value -> string, obj: Value, path: string)
    requires '|' !in path
    ensures var w := Walk(obj, Explode(path, '.'));
            FetchSpec(hash, obj, path) == if w.Some? then Ok(w.value) else Ok(Null)
  {
  }

  /** With a callback, the value at the end of the path is handed to it; when a segment is
      missing the result is null and the callback is never called, even one that does not
      exist. */
  lemma PathWithCallback(hash: Value -> string, obj: Value, path: string, callback: string)
    requires '|' !in path && '|' !in callback && callback != "static"
    ensures var w := Walk(obj, Explode(path, '.'));
            FetchSpec(hash, obj, path + "|" + callback)
              == if w.Some? then Callbacks.Apply(callback, w.value, hash) else Ok(Null)
  {
    assert path + "|" + callback == path + ['|'] + callback;
    ExplodeAtFirst(path, '|', callback);
    ExplodeNoDelimiter(callback, '|');
  }

  /** Whatever a fetch yields that is not a literal comes from the source or a callback, and
      a value found by walking is never null. */
  lemma {:induction false} WalkFindsNonNull(v: Value, segments: seq<string>)
    requires segments != []
    ensures Walk(v, segments).Some? ==> Walk(v, segments).value != Null
    decreases segments
  {
    var x := Index(v, segments[0]);
    if x.Some? && |segments| > 1 {
      WalkFindsNonNull(x.value, segments[1..]);
    }
  }

  // ---------------------------------------------------------------------------------------
  // What transform promises

  /** What the key of an entry ends up holding when the entry is not a splice: nothing for an
      empty branch or a value that is not kept, otherwise the branch's value. */
  function Field(hash: Value -> string, source: Value, b: Branch): Option<Value> {
    if BranchEmpty(b) then None
    else
      match BranchValue(hash, source, b)
      case Ok(v) => if Stored(v) then Some(v) else None
      case Fatal(_) => None
  }

  /** The field the tree `spec` gives the key `k`. */
  function FieldOf(hash: Value -> string, source: Value, spec: Spec, k: Key): Option<Value> {
    match Get(spec, k)
    case None => None
    case Some(b) => Field(hash, source, b)
  }

  /** Two trees with the same entry under `k` give `k` the same field. */
  lemma FieldOfSameEntry(hash: Value -> string, source: Value, a: Spec, b: Spec, k: Key)
    requires Get(a, k) == Get(b, k)
    ensures FieldOf(hash, source, a, k) == FieldOf(hash, source, b, k)
  {
  }

  /** No entry splices an array in: numeric keys carry only empty branches. */
  predicate NoSplice(spec: Spec) {
    forall i :: 0 <= i < |spec| && IsNumericKey(spec[i].0) ==> BranchEmpty(spec[i].1)
  }

  /** The keys of the tree whose branches give a kept value, in the tree's order. */
  function StoredKeys(hash: Value -> string, source: Value, spec: Spec): seq<Key> {
    if spec == [] then []
    else
      var e := spec[|spec| - 1];
      StoredKeys(hash, source, spec[..|spec| - 1]) + (if Field(hash, source, e.1).Some? then [e.0] else [])
  }

  /** A step on a non-splicing entry that does not fail stores the entry's field, if any. */
  lemma StepStoresField(hash: Value -> string, source: Value, dest: seq<(Key, Value)>, key: Key, b: Branch)
    requires IsNumericKey(key) ==> BranchEmpty(b)
    requires Step(hash, source, dest, key, b).Ok?
    ensures Step(hash, source, dest, key, b).value
              == match Field(hash, source, b) case Some(v) => Set(dest, key, v) case None => dest
  {
  }

  /** A step on an entry under a string key whose branch does not fail stores its field. */
  lemma StepField(hash: Value -> string, source: Value, dest: seq<(Key, Value)>, key: Key, b: Branch)
    requires !IsNumericKey(key) && BranchValue(hash, source, b).Ok?
    ensures Step(hash, source, dest, key, b)
         == Ok(match Field(hash, source, b) case Some(v) => Set(dest, key, v) case None => dest)
  {
  }

  /** A non-empty nested tree that does not fail gives its output, unless that is empty. */
  lemma NestedField(hash: Value -> string, source: Value, es: Spec)
    requires es != [] && TransformSpec(hash, source, es).Ok?
    ensures Field(hash, source, Nested(es))
         == if TransformSpec(hash, source, es).value == [] then None else Some(Arr(TransformSpec(hash, source, es).value))
  {
  }

  /** Assigning a key of an empty array. */
  lemma SetEmpty<T>(k: Key, v: T)
    ensures Set([], k, v) == [(k, v)]
  {
    assert KeysOf<T>([]) == [];
    assert [] + [(k, v)] == [(k, v)];
  }

  lemma DistinctPrefix<T>(a: seq<(Key, T)>, n: nat)
    requires n <= |a| && DistinctKeys(a)
    ensures DistinctKeys(a[..n])
  {
    forall i, j | 0 <= i < j < n ensures a[..n][i].0 != a[..n][j].0 {
      assert a[..n][i] == a[i] && a[..n][j] == a[j];
    }
  }

  /** At a level without splices, transform stores under each key exactly that key's field
      (its value when set and not an empty array): empty branches, missing paths and nested
      trees that come out empty leave no key behind. */
  lemma {:induction false} TransformFieldAt(hash: Value -> string, source: Value, spec: Spec, n: nat, k: Key)
    requires n <= |spec| && DistinctKeys(spec) && NoSplice(spec)
    requires TransformPrefix(hash, source, spec, n).Ok?
    ensures Get(TransformPrefix(hash, source, spec, n).value, k) == FieldOf(hash, source, spec[..n], k)
  {
    if n == 0 {
      assert spec[..0] == [];
    } else {
      var p := spec[..n - 1];
      var e := spec[n - 1];
      assert spec[..n] == p + [e];
      PrefixNext(hash, source, spec, n - 1);
      var prev := TransformPrefix(hash, source, spec, n - 1);
      assert prev.Ok?;
      TransformFieldAt(hash, source, spec, n - 1, k);
      DistinctPrefix(spec, n);
      FieldStep(hash, source, p, e, prev.value, TransformPrefix(hash, source, spec, n), k);
    }
  }

  /** One entry more: its key gets its field, every other key keeps its own. */
  lemma FieldStep(hash: Value -> string, source: Value, p: Spec, e: (Key, Branch),
                  prev: seq<(Key, Value)>, next: Outcome<seq<(Key, Value)>>, k: Key)
    requires DistinctKeys(p + [e]) && (IsNumericKey(e.0) ==> BranchEmpty(e.1))
    requires Get(prev, k) == FieldOf(hash, source, p, k)
    requires next == Step(hash, source, prev, e.0, e.1) && next.Ok?
    ensures Get(next.value, k) == FieldOf(hash, source, p + [e], k)
  {
    StepStoresField(hash, source, prev, e.0, e.1);
    LastKeyFresh(p, e);
    GetLastDistinct(p, e, k);
  }

  /** At a level without splices, the output's keys are the keys whose field is set, in the
      tree's order. */
  lemma {:induction false} TransformKeys(hash: Value -> string, source: Value, spec: Spec, n: nat)
    requires n <= |spec| && DistinctKeys(spec) && NoSplice(spec)
    requires TransformPrefix(hash, source, spec, n).Ok?
    ensures KeysOf(TransformPrefix(hash, source, spec, n).value) == StoredKeys(hash, source, spec[..n])
  {
    if n == 0 {
      assert spec[..0] == [];
    } else {
      var p := spec[..n - 1];
      var e := spec[n - 1];
      assert spec[..n] == p + [e];
      PrefixNext(hash, source, spec, n - 1);
      var prev := TransformPrefix(hash, source, spec, n - 1);
      assert prev.Ok?;
      TransformKeys(hash, source, spec, n - 1);
      TransformFieldAt(hash, source, spec, n - 1, e.0);
      DistinctPrefix(spec, n);
      KeysStep(hash, source, p, e, prev.value, TransformPrefix(hash, source, spec, n));
    }
  }

  /** One entry more: its key is appended exactly when its field is set. */
  lemma KeysStep(hash: Value -> string, source: Value, p: Spec, e: (Key, Branch),
                 prev: seq<(Key, Value)>, next: Outcome<seq<(Key, Value)>>)
    requires DistinctKeys(p + [e]) && (IsNumericKey(e.0) ==> BranchEmpty(e.1))
    requires KeysOf(prev) == StoredKeys(hash, source, p)
    requires Get(prev, e.0) == FieldOf(hash, source, p, e.0)
    requires next == Step(hash, source, prev, e.0, e.1) && next.Ok?
    ensures KeysOf(next.value) == StoredKeys(hash, source, p + [e])
  {
    StepStoresField(hash, source, prev, e.0, e.1);
    LastKeyFresh(p, e);
    GetIffKey(prev, e.0);
    assert (p + [e])[..|p|] == p;
  }

  /** The whole tree: see TransformFieldAt and TransformKeys. Every key the output holds has
      a kept value. */
  lemma TransformKeepsFields(hash: Value -> string, source: Value, spec: Spec)
    requires DistinctKeys(spec) && NoSplice(spec)
    requires TransformSpec(hash, source, spec).Ok?
    ensures KeysOf(TransformSpec(hash, source, spec).value) == StoredKeys(hash, source, spec)
    ensures forall k :: Get(TransformSpec(hash, source, spec).value, k) == FieldOf(hash, source, spec, k)
    ensures forall k :: Get(TransformSpec(hash, source, spec).value, k).Some? ==>
              Stored(Get(TransformSpec(hash, source, spec).value, k).value)
  {
    assert spec[..|spec|] == spec;
    TransformKeys(hash, source, spec, |spec|);
    forall k ensures Get(TransformSpec(hash, source, spec).value, k) == FieldOf(hash, source, spec, k) {
      TransformFieldAt(hash, source, spec, |spec|, k);
    }
  }

  /** A level whose keys are all words splices nothing in. */
  lemma WordKeyedNoSplice(spec: Spec)
    requires WordKeyed(spec)
    ensures NoSplice(spec)
  {
    forall i | 0 <= i < |spec| ensures !IsNumericKey(spec[i].0) {
      assert KeysOf(spec)[i] == spec[i].0;
      WordKey(spec[i].0.s);
    }
  }

  /** At a level of distinct word keys, each key of the output holds that key's field. */
  lemma WordKeyedFields(hash: Value -> string, source: Value, spec: Spec, k: Key)
    requires DistinctKeys(spec) && WordKeyed(spec)
    requires TransformSpec(hash, source, spec).Ok?
    ensures Get(TransformSpec(hash, source, spec).value, k) == FieldOf(hash, source, spec, k)
  {
    WordKeyedNoSplice(spec);
    TransformKeepsFields(hash, source, spec);
  }

  /** A value found, if the transformer keeps it. */
  function Kept(found: Option<Value>): Option<Value> {
    if found.Some? && Stored(found.value) then found else None
  }

  /** The field of a plain path is the value at its end, when that value is kept. */
  lemma PathField(hash: Value -> string, source: Value, path: string)
    requires '|' !in path && path != "" && path != "0"
    ensures Field(hash, source, Path(path)) == Kept(Walk(source, Explode(path, '.')))
  {
    PlainPath(hash, source, path);
  }

  /** A path branch whose fetch gives a value that is kept stores that value. */
  lemma FetchedField(hash: Value -> string, source: Value, expr: string, v: Value)
    requires expr != "" && expr != "0" && FetchSpec(hash, source, expr) == Ok(v) && Stored(v)
    ensures Field(hash, source, Path(expr)) == Some(v)
  {
  }

  /** Under a numeric key, a fetched non-empty array is merged into the output. */
  lemma StepSplices(hash: Value -> string, source: Value, dest: seq<(Key, Value)>, key: Key, expr: string)
    requires IsNumericKey(key) && !BranchEmpty(Path(expr))
    requires FetchSpec(hash, source, expr).Ok? && FetchSpec(hash, source, expr).value.Arr?
    ensures var a := FetchSpec(hash, source, expr).value.entries;
            Step(hash, source, dest, key, Path(expr)) == Ok(if a == [] then dest else ArrayMerge(dest, a))
  {
  }

  /** Under numeric keys, fetched lists are appended one after the other, in tree order, and
      numbered from 0. */
  lemma SpliceLists(hash: Value -> string, source: Value, first: string, second: string, k0: Key, k1: Key)
    requires IsNumericKey(k0) && IsNumericKey(k1)
    requires !BranchEmpty(Path(first)) && !BranchEmpty(Path(second))
    requires FetchSpec(hash, source, first).Ok? && FetchSpec(hash, source, first).value.Arr?
    requires FetchSpec(hash, source, second).Ok? && FetchSpec(hash, source, second).value.Arr?
    requires IsList(FetchSpec(hash, source, first).value.entries)
    requires IsList(FetchSpec(hash, source, second).value.entries)
    ensures var a := FetchSpec(hash, source, first).value.entries;
            var b := FetchSpec(hash, source, second).value.entries;
            var r := TransformSpec(hash, source, [(k0, Path(first)), (k1, Path(second))]);
            && r == Ok(Renumber(a + b, 0))
            && ValuesOf(r.value) == ValuesOf(a) + ValuesOf(b)
  {
    var a := FetchSpec(hash, source, first).value.entries;
    var b := FetchSpec(hash, source, second).value.entries;
    var spec := [(k0, Path(first)), (k1, Path(second))];
    StepSplices(hash, source, [], k0, first);
    var d1 := if a == [] then [] else ArrayMerge([], a);
    assert TransformPrefix(hash, source, spec, 1) == Ok(d1);
    StepSplices(hash, source, d1, k1, second);
    SpliceTwo(a, b);
    ValuesOfRenumber(a + b);
    ValuesOfConcat(a, b);
  }

  // ---------------------------------------------------------------------------------------
  // Small trees, one turn at a time

  /** A path without a callback yields what the walk along its segments finds. */
  lemma FetchAlong(hash: Value -> string, obj: Value, expr: string, segments: seq<string>, found: Option<Value>)
    requires '|' !in expr && Explode(expr, '.') == segments && Walk(obj, segments) == found
    ensures FetchSpec(hash, obj, expr) == if found.Some? then Ok(found.value) else Ok(Null)
  {
    ExplodeNoDelimiter(expr, '|');
  }

  /** A walk of one segment is one lookup. */
  lemma WalkOne(v: Value, segment: string)
    ensures Walk(v, [segment]) == Index(v, segment)
  {
    assert [segment][1..] == [];
  }

  /** The segments of a dotted path with two dots or fewer. */
  lemma Segments2(a: string, b: string)
    requires '.' !in a && '.' !in b
    ensures Explode(a + "." + b, '.') == [a, b]
  {
    assert a + "." + b == a + ['.'] + b;
    ExplodeAtFirst(a, '.', b);
    ExplodeNoDelimiter(b, '.');
  }

  lemma Segments3(a: string, b: string, c: string)
    requires '.' !in a && '.' !in b && '.' !in c
    ensures Explode(a + "." + b + "." + c, '.') == [a, b, c]
  {
    assert a + "." + b + "." + c == a + ['.'] + (b + "." + c);
    ExplodeAtFirst(a, '.', b + "." + c);
    Segments2(b, c);
  }

  /** A tree of one entry under a string key. */
  lemma OneEntry(hash: Value -> string, source: Value, k: Key, b: Branch, v: Value)
    requires !BranchEmpty(b) && !IsNumericKey(k) && BranchValue(hash, source, b) == Ok(v)
    ensures TransformSpec(hash, source, [(k, b)]) == Ok(if Stored(v) then [(k, v)] else [])
  {
    assert TransformPrefix(hash, source, [(k, b)], 0) == Ok([]);
    assert KeysOf<Value>([]) == [];
    assert Set([], k, v) == [(k, v)];
    assert Step(hash, source, [], k, b) == Ok(if Stored(v) then Set([], k, v) else []);
  }

  /** Storing a value under a key the output does not hold yet appends it. */
  lemma StoreNew(hash: Value -> string, source: Value, dest: seq<(Key, Value)>, k: Key, b: Branch, v: Value)
    requires k !in KeysOf(dest)
    requires !BranchEmpty(b) && !IsNumericKey(k) && BranchValue(hash, source, b) == Ok(v) && Stored(v)
    ensures Step(hash, source, dest, k, b) == Ok(dest + [(k, v)])
  {
  }

  /** The first turn over a tree whose first entry, under a string key, is kept. */
  lemma FirstEntryStored(hash: Value -> string, source: Value, k1: Key, b1: Branch, v1: Value, k2: Key, b2: Branch)
    requires !BranchEmpty(b1) && !IsNumericKey(k1) && BranchValue(hash, source, b1) == Ok(v1) && Stored(v1)
    ensures TransformPrefix(hash, source, [(k1, b1), (k2, b2)], 1) == Ok([(k1, v1)])
  {
    assert TransformPrefix(hash, source, [(k1, b1), (k2, b2)], 0) == Ok([]);
    StoreNew(hash, source, [], k1, b1, v1);
    assert [] + [(k1, v1)] == [(k1, v1)];
  }

  /** A tree of two entries under distinct string keys, both kept. */
  lemma TwoEntries(hash: Value -> string, source: Value, k1: Key, b1: Branch, v1: Value, k2: Key, b2: Branch, v2: Value)
    requires k1 != k2
    requires !BranchEmpty(b1) && !IsNumericKey(k1) && BranchValue(hash, source, b1) == Ok(v1) && Stored(v1)
    requires !BranchEmpty(b2) && !IsNumericKey(k2) && BranchValue(hash, source, b2) == Ok(v2) && Stored(v2)
    ensures TransformSpec(hash, source, [(k1, b1), (k2, b2)]) == Ok([(k1, v1), (k2, v2)])
  {
    var spec := [(k1, b1), (k2, b2)];
    FirstEntryStored(hash, source, k1, b1, v1, k2, b2);
    PrefixNext(hash, source, spec, 1);
    SecondEntryStored(hash, source, k1, v1, k2, b2, v2);
  }

  /** The second turn, after the first stored `k1`, stores a kept `k2` after it. */
  lemma SecondEntryStored(hash: Value -> string, source: Value, k1: Key, v1: Value, k2: Key, b2: Branch, v2: Value)
    requires k1 != k2
    requires !BranchEmpty(b2) && !IsNumericKey(k2) && BranchValue(hash, source, b2) == Ok(v2) && Stored(v2)
    ensures Step(hash, source, [(k1, v1)], k2, b2) == Ok([(k1, v1), (k2, v2)])
  {
    assert KeysOf([(k1, v1)]) == [k1];
    StoreNew(hash, source, [(k1, v1)], k2, b2, v2);
    assert [(k1, v1)] + [(k2, v2)] == [(k1, v1), (k2, v2)];
  }
}
