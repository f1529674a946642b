/**
 * The mapping trees both Segment transformers share: the `context` tree of every call and
 * the page properties, and what transforming a per-call map built by `array_merge` gives.
 */
module SegmentMaps {
  import opened Php
  import opened Mapping

  /** The four Segment call kinds a per-call map is built for. */
  const CALL_TYPES: set<string> := {"identify", "page", "track", "group"}

  function Leaf(k: string, expr: string): (Key, Branch) { (StrKey(k), Path(expr)) }

  function Tree(k: string, entries: Spec): (Key, Branch) { (StrKey(k), Nested(entries)) }

  /** `$k => null`: an override that removes an entry. */
  function Drop(k: string): (Key, Branch) { (StrKey(k), Omit) }

  /** `$i => $expr` under an integer key: the fetched array is spliced in. */
  function Splice(i: int, expr: string): (Key, Branch) { (IntKey(i), Path(expr)) }

  /** `context.page`, which is also the page call's `properties`. */
  function PageMap(): Spec {
    [Leaf("path", ""), Leaf("referrer", "attributes.referrer"), Leaf("search", "attributes.search"),
     Leaf("title", "attributes.title"), Leaf("url", "attributes.url"), Tree("keywords", [])]
  }

  /** `context.app`: only the version is read, from the path `appVersion`. */
  function AppMap(appVersion: string): Spec {
    [Leaf("name", ""), Leaf("build", ""), Leaf("version", appVersion)]
  }

  /** The `context` tree; the two transformers differ in the path of the app version and in
      the traits tree. */
  function ContextMap(appVersion: string, traits: Spec): Spec {
    [Leaf("active", "endpoint.EndpointStatus"),
     Tree("app", AppMap(appVersion)),
     Tree("campaign", [Leaf("name", "attributes.qv_utm_campaign"), Leaf("source", "attributes.qv_utm_source"),
                       Leaf("medium", "attributes.qv_utm_medium"), Leaf("term", "attributes.qv_utm_term"),
                       Leaf("content", "attributes.qv_utm_content")]),
     Tree("device", [Leaf("id", ""), Leaf("advertisingId", ""),
                     Leaf("manufacturer", "endpoint.Attributes.DeviceMake.0"),
                     Leaf("model", "endpoint.Attributes.DeviceModel.0"), Leaf("name", ""),
                     Leaf("type", "endpoint.Attributes.DeviceType.0"), Leaf("version", "")]),
     Leaf("ip", ""),
     Tree("library", [Leaf("name", ""), Leaf("version", "")]),
     Leaf("locale", "endpoint.Demographic.Locale"),
     Tree("location", [Leaf("country", "endpoint.Location.Country"), Leaf("city", "endpoint.Location.City"),
                       Leaf("latitude", "endpoint.Location.Latitude"),
                       Leaf("longitude", "endpoint.Location.Longitude")]),
     Tree("os", [Leaf("name", "endpoint.Demographic.Platform"), Leaf("version", "endpoint.Demographic.PlatformVersion")]),
     Tree("page", PageMap()),
     Tree("referrer", [Leaf("type", ""), Leaf("name", ""), Leaf("url", ""), Leaf("link", "")]),
     Tree("screen", [Leaf("density", ""), Leaf("height", ""), Leaf("width", "")]),
     Leaf("timezone", "endpoint.Demographic.Timezone"),
     Leaf("groupId", ""),
     Tree("traits", traits),
     Leaf("userAgent", "")]
  }

  /** The keys of the `context` tree, in order. */
  const CONTEXT_KEYS: seq<Key> := [StrKey("active"), StrKey("app"), StrKey("campaign"), StrKey("device"),
    StrKey("ip"), StrKey("library"), StrKey("locale"), StrKey("location"), StrKey("os"), StrKey("page"),
    StrKey("referrer"), StrKey("screen"), StrKey("timezone"), StrKey("groupId"), StrKey("traits"),
    StrKey("userAgent")]

  lemma ContextKeys(appVersion: string, traits: Spec)
    ensures KeysOf(ContextMap(appVersion, traits)) == CONTEXT_KEYS
  {
  }

  lemma ContextKeysDistinct()
    ensures forall i, j :: 0 <= i < j < |CONTEXT_KEYS| ==> CONTEXT_KEYS[i] != CONTEXT_KEYS[j]
  {
  }

  lemma ContextKeysWords()
    ensures forall k :: k in CONTEXT_KEYS ==> k.StrKey? && IsWord(k.s)
  {
  }

  lemma ContextShape(appVersion: string, traits: Spec)
    ensures DistinctKeys(ContextMap(appVersion, traits)) && WordKeyed(ContextMap(appVersion, traits))
  {
    var m := ContextMap(appVersion, traits);
    ContextKeys(appVersion, traits);
    ContextKeysDistinct();
    ContextKeysWords();
    forall i, j | 0 <= i < j < |m| ensures m[i].0 != m[j].0 {
      assert m[i].0 == CONTEXT_KEYS[i] && m[j].0 == CONTEXT_KEYS[j];
    }
  }

  /** What `context.app` holds for a version found: the version alone, when it is kept. */
  function AppOf(found: Option<Value>): (r: Option<Value>)
    ensures r.Some? <==> Kept(found).Some?
  {
    match Kept(found)
    case None => None
    case Some(v) => Some(Arr([(StrKey("version"), v)]))
  }

  lemma AppHead(appVersion: string)
    ensures |AppMap(appVersion)| == 3
    ensures BranchEmpty(AppMap(appVersion)[0].1) && BranchEmpty(AppMap(appVersion)[1].1)
    ensures AppMap(appVersion)[2] == (StrKey("version"), Path(appVersion))
  {
  }

  /** The app tree yields the version found at the end of its path, or nothing: its name and
      build are empty branches. */
  lemma AppField(hash: Value -> string, source: Value, appVersion: string)
    requires '|' !in appVersion && appVersion != "" && appVersion != "0"
    ensures Field(hash, source, Nested(AppMap(appVersion))) == AppOf(Walk(source, Explode(appVersion, '.')))
  {
    var m := AppMap(appVersion);
    AppHead(appVersion);
    var f := Field(hash, source, m[2].1);
    PlainPath(hash, source, appVersion);
    PathField(hash, source, appVersion);
    assert TransformPrefix(hash, source, m, 1) == Ok([]);
    assert TransformPrefix(hash, source, m, 2) == Ok([]);
    WordKey("version");
    StepField(hash, source, [], StrKey("version"), Path(appVersion));
    var d: seq<(Key, Value)> := if f.Some? then [(StrKey("version"), f.value)] else [];
    if f.Some? {
      SetEmpty(StrKey("version"), f.value);
    }
    assert TransformSpec(hash, source, m) == Ok(d);
    NestedField(hash, source, m);
  }

  /** The context holds under `app` the app tree's field. */
  lemma ContextApp(hash: Value -> string, source: Value, appVersion: string, traits: Spec)
    requires TransformSpec(hash, source, ContextMap(appVersion, traits)).Ok?
    ensures Get(TransformSpec(hash, source, ContextMap(appVersion, traits)).value, StrKey("app"))
         == Field(hash, source, Nested(AppMap(appVersion)))
  {
    ContextShape(appVersion, traits);
    GetDistinct(ContextMap(appVersion, traits), 1);
    CallEntry(hash, source, ContextMap(appVersion, traits), StrKey("app"), Nested(AppMap(appVersion)));
  }

  /** Whenever a call keeps its context, the context's `app` holds the version found at the
      end of the app version path, or nothing. */
  lemma ContextAppOf(hash: Value -> string, source: Value, appVersion: string, traits: Spec)
    requires '|' !in appVersion && appVersion != "" && appVersion != "0"
    ensures var c := Field(hash, source, Nested(ContextMap(appVersion, traits)));
            c.Some? ==> (c.value.Arr? &&
              Get(c.value.entries, StrKey("app")) == AppOf(Walk(source, Explode(appVersion, '.'))))
  {
    if Field(hash, source, Nested(ContextMap(appVersion, traits))).Some? {
      ContextApp(hash, source, appVersion, traits);
      AppField(hash, source, appVersion);
    }
  }

  // ---------------------------------------------------------------------------------------
  // Transforming a merged map

  /** An entry of the base tree whose key the overrides do not name keeps its branch. */
  lemma BaseEntry(base: Spec, over: Spec, i: int)
    requires DistinctKeys(base) && WordKeyed(base) && DistinctKeys(over) && 0 <= i < |base|
    requires base[i].0 !in KeysOf(over)
    ensures Get(ArrayMerge(base, over), base[i].0) == Some(base[i].1)
  {
    assert base[i].0 == KeysOf(base)[i];
    GetDistinct(base, i);
    ArrayMergeGetString(base, over, base[i].0.s);
  }

  /** Every entry of the overrides wins. */
  lemma OverrideEntry(base: Spec, over: Spec, j: int)
    requires DistinctKeys(base) && DistinctKeys(over) && WordKeyed(over) && 0 <= j < |over|
    ensures Get(ArrayMerge(base, over), over[j].0) == Some(over[j].1)
  {
    assert over[j].0 == KeysOf(over)[j];
    GetDistinct(over, j);
    ArrayMergeGetString(base, over, over[j].0.s);
  }

  /** A call holds under a word key of its tree the field of that key's branch. */
  lemma CallEntry(hash: Value -> string, source: Value, m: Spec, k: Key, b: Branch)
    requires DistinctKeys(m) && WordKeyed(m) && Get(m, k) == Some(b)
    requires TransformSpec(hash, source, m).Ok?
    ensures Get(TransformSpec(hash, source, m).value, k) == Field(hash, source, b)
  {
    WordKeyedFields(hash, source, m, k);
  }

  /** The entries of an array found, and none for anything else. */
  function Entries(found: Option<Value>): (r: seq<(Key, Value)>)
    ensures found.Some? && found.value.Arr? ==> r == found.value.entries
    ensures r != [] ==> found.Some? && found.value.Arr?
  {
    if found.Some? && found.value.Arr? then found.value.entries else []
  }

  /** A path of one segment and no callback fetches the value under that key, or null. */
  lemma KeyFetch(hash: Value -> string, source: Value, name: string)
    requires name != "" && '.' !in name && '|' !in name
    ensures FetchSpec(hash, source, name)
         == if Index(source, name).Some? then Ok(Index(source, name).value) else Ok(Null)
  {
    PlainPath(hash, source, name);
    ExplodeNoDelimiter(name, '.');
    WalkOne(source, name);
  }

  /** A top-level key holding an array or nothing fetches that array or null. */
  lemma KeySplice(hash: Value -> string, source: Value, name: string)
    requires name != "" && '.' !in name && '|' !in name
    requires Index(source, name).None? || Index(source, name).value.Arr?
    ensures var a := Entries(Index(source, name));
            FetchSpec(hash, source, name) == Ok(Arr(a)) || (FetchSpec(hash, source, name) == Ok(Null) && a == [])
  {
    KeyFetch(hash, source, name);
  }

  /** What splicing two arrays into an empty output leaves, merging an empty one being
      skipped. */
  function SplicedPair(a: seq<(Key, Value)>, b: seq<(Key, Value)>): seq<(Key, Value)> {
    var d1 := if a == [] then [] else ArrayMerge([], a);
    if b == [] then d1 else ArrayMerge(d1, b)
  }

  /** Splicing two arrays leaves nothing only when both are empty. */
  lemma SplicedPairEmpty(a: seq<(Key, Value)>, b: seq<(Key, Value)>)
    ensures SplicedPair(a, b) == [] <==> a == [] && b == []
  {
    if a != [] {
      ArrayMergeNonEmpty([], a);
      if b != [] {
        ArrayMergeNonEmpty(ArrayMerge([], a), b);
      }
    } else if b != [] {
      ArrayMergeNonEmpty([], b);
    }
  }

  /** In two arrays spliced one after the other a string key takes the second array's value
      when it has one and the first's otherwise. */
  lemma SplicedPairFields(a: seq<(Key, Value)>, b: seq<(Key, Value)>, s: string)
    requires DistinctKeys(a) && DistinctKeys(b)
    ensures Get(SplicedPair(a, b), StrKey(s))
         == if StrKey(s) in KeysOf(b) then Get(b, StrKey(s)) else Get(a, StrKey(s))
  {
    var d1 := if a == [] then [] else ArrayMerge([], a);
    ArrayMergeWellFormed([], a);
    GetIffKey(a, StrKey(s));
    GetIffKey(b, StrKey(s));
    if a != [] {
      ArrayMergeGetString([], a, s);
    }
    if b != [] {
      ArrayMergeGetString(d1, b, s);
    }
  }

  /** Two paths under numeric keys, either of them possibly missing, splice their arrays in
      turn. */
  lemma TwoSplices(hash: Value -> string, source: Value, first: string, second: string, k0: Key, k1: Key,
                   a: seq<(Key, Value)>, b: seq<(Key, Value)>)
    requires IsNumericKey(k0) && IsNumericKey(k1) && !BranchEmpty(Path(first)) && !BranchEmpty(Path(second))
    requires FetchSpec(hash, source, first) == Ok(Arr(a)) || (FetchSpec(hash, source, first) == Ok(Null) && a == [])
    requires FetchSpec(hash, source, second) == Ok(Arr(b)) || (FetchSpec(hash, source, second) == Ok(Null) && b == [])
    ensures TransformSpec(hash, source, [(k0, Path(first)), (k1, Path(second))]) == Ok(SplicedPair(a, b))
  {
    var spec := [(k0, Path(first)), (k1, Path(second))];
    var d1 := if a == [] then [] else ArrayMerge([], a);
    SpliceStep(hash, source, [], k0, first, a);
    assert TransformPrefix(hash, source, spec, 1) == Step(hash, source, [], k0, Path(first));
    SpliceStep(hash, source, d1, k1, second, b);
  }

  lemma SpliceStep(hash: Value -> string, source: Value, dest: seq<(Key, Value)>, k: Key, expr: string,
                   a: seq<(Key, Value)>)
    requires IsNumericKey(k) && !BranchEmpty(Path(expr))
    requires FetchSpec(hash, source, expr) == Ok(Arr(a)) || (FetchSpec(hash, source, expr) == Ok(Null) && a == [])
    ensures Step(hash, source, dest, k, Path(expr)) == Ok(if a == [] then dest else ArrayMerge(dest, a))
  {
  }

  /** An array PHP built from string keys only, such as a decoded JSON object. */
  predicate StringKeyed(a: seq<(Key, Value)>) {
    DistinctKeys(a) && forall i :: 0 <= i < |a| ==> a[i].0.StrKey?
  }

  /** One path under a numeric key: a string-keyed array is copied over as it is, and an
      empty or missing one leaves nothing. */
  lemma OneSplice(hash: Value -> string, source: Value, path: string, k: Key, a: seq<(Key, Value)>)
    requires IsNumericKey(k) && !BranchEmpty(Path(path)) && StringKeyed(a)
    requires FetchSpec(hash, source, path) == Ok(Arr(a)) || (FetchSpec(hash, source, path) == Ok(Null) && a == [])
    ensures TransformSpec(hash, source, [(k, Path(path))]) == Ok(a)
  {
    SpliceStep(hash, source, [], k, path, a);
    assert TransformPrefix(hash, source, [(k, Path(path))], 0) == Ok([]);
    assert [] + a == a;
    MergeIntoFresh([], a);
  }

  /** Merging a string-keyed array into another leaves a string-keyed array. */
  lemma {:induction false} MergeIntoStringKeyed(dest: seq<(Key, Value)>, xs: seq<(Key, Value)>)
    requires StringKeyed(dest) && StringKeyed(xs)
    ensures StringKeyed(MergeInto(dest, xs))
  {
    if xs != [] {
      var p := xs[..|xs| - 1];
      var e := xs[|xs| - 1];
      assert StringKeyed(p);
      MergeIntoStringKeyed(dest, p);
      var m := MergeInto(dest, p);
      var r := Set(m, e.0, e.1);
      forall i | 0 <= i < |r| ensures r[i].0.StrKey? {
        assert KeysOf(r)[i] == r[i].0;
        if i < |m| {
          assert KeysOf(m)[i] == m[i].0;
        }
      }
    }
  }

  /** Two string-keyed arrays merged in turn over a third leave its keys in their places. */
  lemma MergeTwiceKeepsKeys(c: seq<(Key, Value)>, a: seq<(Key, Value)>, u: seq<(Key, Value)>)
    requires StringKeyed(c) && StringKeyed(a) && StringKeyed(u)
    ensures StringKeyed(MergeInto(MergeInto(c, a), u))
    ensures |c| <= |MergeInto(MergeInto(c, a), u)|
    ensures KeysOf(MergeInto(MergeInto(c, a), u))[..|c|] == KeysOf(c)
  {
    var m := MergeInto(c, a);
    MergeIntoStringKeyed(c, a);
    MergeIntoKeepsKeys(c, a);
    MergeIntoStringKeyed(m, u);
    MergeIntoKeepsKeys(m, u);
    var t := MergeInto(m, u);
    assert KeysOf(t)[..|c|] == KeysOf(t)[..|m|][..|c|];
  }

  /** A string-keyed array spliced over a string-keyed output: the keys already there keep
      their places, new keys follow, and the output stays string-keyed. */
  lemma StringSplice(hash: Value -> string, source: Value, dest: seq<(Key, Value)>, k: Key, expr: string,
                     a: seq<(Key, Value)>)
    requires StringKeyed(dest) && StringKeyed(a) && IsNumericKey(k) && !BranchEmpty(Path(expr))
    requires FetchSpec(hash, source, expr) == Ok(Arr(a)) || (FetchSpec(hash, source, expr) == Ok(Null) && a == [])
    ensures Step(hash, source, dest, k, Path(expr)) == Ok(MergeInto(dest, a))
    ensures StringKeyed(MergeInto(dest, a))
    ensures |dest| <= |MergeInto(dest, a)| && KeysOf(MergeInto(dest, a))[..|dest|] == KeysOf(dest)
  {
    SpliceStep(hash, source, dest, k, expr, a);
    if a != [] {
      assert [] + dest == dest;
      MergeIntoFresh([], dest);
    }
    MergeIntoStringKeyed(dest, a);
    MergeIntoKeepsKeys(dest, a);
  }

  /** The output of two entries under distinct string keys: each key whose field is kept, in
      order. */
  function KeptPair(k1: Key, f1: Option<Value>, k2: Key, f2: Option<Value>): (r: seq<(Key, Value)>)
    requires k1 != k2 && k1.StrKey? && k2.StrKey?
    ensures StringKeyed(r)
    ensures KeysOf(r) == (if f1.Some? then [k1] else []) + (if f2.Some? then [k2] else [])
  {
    (if f1.Some? then [(k1, f1.value)] else []) + (if f2.Some? then [(k2, f2.value)] else [])
  }

  /** Each of the two keys holds its field. */
  lemma KeptPairGet(k1: Key, f1: Option<Value>, k2: Key, f2: Option<Value>)
    requires k1 != k2 && k1.StrKey? && k2.StrKey?
    ensures Get(KeptPair(k1, f1, k2, f2), k1) == f1 && Get(KeptPair(k1, f1, k2, f2), k2) == f2
  {
    var r := KeptPair(k1, f1, k2, f2);
    GetIffKey(r, k1);
    GetIffKey(r, k2);
    if f1.Some? {
      GetDistinct(r, 0);
    }
    if f2.Some? {
      GetDistinct(r, |r| - 1);
    }
  }

  /** An array that starts with the keys of a pair holding both fields starts with those two
      keys. */
  lemma KeptPairLeads(k1: Key, f1: Option<Value>, k2: Key, f2: Option<Value>, t: seq<(Key, Value)>)
    requires k1 != k2 && k1.StrKey? && k2.StrKey? && f1.Some? && f2.Some?
    requires |KeptPair(k1, f1, k2, f2)| <= |t| && KeysOf(t)[..|KeptPair(k1, f1, k2, f2)|] == KeysOf(KeptPair(k1, f1, k2, f2))
    ensures |t| >= 2 && t[0].0 == k1 && t[1].0 == k2
  {
    assert KeysOf(t)[..2] == [k1, k2];
    assert KeysOf(t)[0] == t[0].0 && KeysOf(t)[1] == t[1].0;
  }

  /** The first two entries of a tree, under distinct word keys and with branches that do not
      fail, store their fields. */
  lemma KeptPairPrefix(hash: Value -> string, source: Value, spec: Spec)
    requires |spec| >= 2 && spec[0].0 != spec[1].0
    requires spec[0].0.StrKey? && IsWord(spec[0].0.s) && spec[1].0.StrKey? && IsWord(spec[1].0.s)
    requires BranchValue(hash, source, spec[0].1).Ok? && BranchValue(hash, source, spec[1].1).Ok?
    ensures TransformPrefix(hash, source, spec, 2)
         == Ok(KeptPair(spec[0].0, Field(hash, source, spec[0].1), spec[1].0, Field(hash, source, spec[1].1)))
  {
    var k1, k2 := spec[0].0, spec[1].0;
    var b1, b2 := spec[0].1, spec[1].1;
    var f1, f2 := Field(hash, source, b1), Field(hash, source, b2);
    WordKey(k1.s);
    WordKey(k2.s);
    assert TransformPrefix(hash, source, spec, 1) == Step(hash, source, [], k1, b1);
    StepField(hash, source, [], k1, b1);
    var d1: seq<(Key, Value)> := if f1.Some? then [(k1, f1.value)] else [];
    if f1.Some? {
      assert KeysOf<Value>([]) == [];
      assert [] + [(k1, f1.value)] == d1;
    }
    assert TransformPrefix(hash, source, spec, 2) == Step(hash, source, d1, k2, b2);
    StepField(hash, source, d1, k2, b2);
    assert KeptPair(k1, f1, k2, f2) == d1 + (if f2.Some? then [(k2, f2.value)] else []);
    if f2.Some? {
      assert KeysOf(d1) == if f1.Some? then [k1] else [];
      assert Set(d1, k2, f2.value) == d1 + [(k2, f2.value)];
    } else {
      assert d1 + [] == d1;
    }
  }

  /** `event_type`: the event's type, when it has one. */
  lemma EventTypeText()
    ensures '.' !in "event_type" && '|' !in "event_type"
  {
  }

  lemma EventTypeField(hash: Value -> string, source: Value)
    ensures Field(hash, source, Path("event_type")) == Kept(Index(source, "event_type"))
  {
    EventTypeText();
    KeyFetch(hash, source, "event_type");
  }

  lemma TitleText()
    ensures "attributes" + "." + "title" == "attributes.title" && '|' !in "attributes.title"
  {
  }

  lemma TitleSegments()
    ensures Explode("attributes.title", '.') == ["attributes", "title"]
  {
    TitleText();
    Segments2("attributes", "title");
  }

  /** `attributes.title`: the page title, when the event has one. */
  lemma TitleField(hash: Value -> string, source: Value)
    ensures Field(hash, source, Path("attributes.title")) == Kept(Walk(source, ["attributes", "title"]))
  {
    TitleText();
    TitleSegments();
    PathField(hash, source, "attributes.title");
  }

  /** `type|static` gives the call its kind. */
  lemma TypeField(hash: Value -> string, source: Value, kind: string)
    requires kind in CALL_TYPES
    ensures Field(hash, source, Path(kind + "|static")) == Some(Str(kind))
  {
    StaticLiteral(hash, source, kind);
  }
}
