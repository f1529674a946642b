/**
 * The per-call mapping trees of `SegmentTransformer`, the older transformer: the same
 * construction as the export's, with the message id read from the endpoint's request id,
 * session and page-view counts in the traits, and the endpoint's attributes as the track
 * properties.
 */
module SegmentLegacy {
  import opened Php
  import opened Mapping
  import opened SegmentMaps
  import Callbacks

  /** `context.traits`: two counters, then the endpoint's and the user's attributes spliced
      in. */
  function Traits(): Spec {
    [Leaf("sessions", "endpoint.Metrics.sessions"), Leaf("pageViews", "endpoint.Metrics.pageViews"),
     Splice(0, "endpoint.Attributes"), Splice(1, "endpoint.User.Attributes")]
  }

  /** `$mapping`, the base tree of a call of kind `kind`, with its keys in order. */
  function BaseMap(kind: string): (r: Spec)
    ensures |r| == 6 && r[0].0 == StrKey("type") && r[1].0 == StrKey("anonymousId")
    ensures r[2].0 == StrKey("messageId") && r[3].0 == StrKey("timestamp") && r[4].0 == StrKey("userId")
    ensures r[5].0 == StrKey("context")
  {
    [Leaf("type", kind + "|static"),
     Leaf("anonymousId", "endpoint.Id"),
     Leaf("messageId", "endpoint.RequestId"),
     Leaf("timestamp", "event_timestamp" + "|" + Callbacks.FORMAT_DATE),
     Leaf("userId", "endpoint.User.UserId"),
     Tree("context", ContextMap("endpoint.Demographics.AppVersion", Traits()))]
  }

  /** A track call's `properties`: the endpoint's attributes. */
  function TrackProperties(): Spec {
    [Splice(0, "endpoint.Attributes")]
  }

  /** The entries the `if`/`elseif` chain on the call kind merges over the base tree; nothing
      for a kind the chain does not know. */
  function Overrides(kind: string): (r: Option<Spec>)
    ensures r.Some? <==> kind in CALL_TYPES
    ensures r.Some? ==> |r.value| == 2
  {
    if kind == "identify" then Some([Tree("traits", Traits()), Drop("context")])
    else if kind == "page" then Some([Leaf("name", "attributes.title"), Tree("properties", PageMap())])
    else if kind == "track" then Some([Leaf("event", "event_type"), Tree("properties", TrackProperties())])
    else if kind == "group" then Some([Drop("context"), Drop("messageId")])
    else None
  }

  /** `get_segment_call_type_map($kind)`: a tree for each of the four call kinds, and null
      for any other kind (no branch of the chain sets `$type_mapping`). */
  function CallTypeMap(kind: string): (r: Option<Spec>)
    ensures r.Some? <==> kind in CALL_TYPES
  {
    match Overrides(kind)
    case None => None
    case Some(o) => Some(ArrayMerge(BaseMap(kind), o))
  }

  // ---------------------------------------------------------------------------------------
  // The shape of the trees

  lemma BaseShape(kind: string)
    ensures DistinctKeys(BaseMap(kind)) && WordKeyed(BaseMap(kind))
  {
    var b := BaseMap(kind);
    assert "messageId"[0] != "timestamp"[0];
    assert forall i :: 0 <= i < |b| ==> b[i].0.StrKey? && IsWord(b[i].0.s);
    assert forall k :: k in KeysOf(b) ==> exists i :: 0 <= i < |b| && k == b[i].0;
  }

  /** The keys the chain can override. */
  const OVERRIDDEN: set<string> := {"traits", "context", "name", "properties", "event", "messageId"}

  lemma OverridesShape(kind: string)
    requires kind in CALL_TYPES
    ensures Overrides(kind).Some? && DistinctKeys(Overrides(kind).value) && WordKeyed(Overrides(kind).value)
    ensures forall k :: k in KeysOf(Overrides(kind).value) ==>
              k.StrKey? && k.s in OVERRIDDEN && (k.s == "messageId" ==> kind == "group")
  {
    var o := Overrides(kind).value;
    assert |o| == 2 && KeysOf(o) == [o[0].0, o[1].0];
  }

  lemma NotOverridden()
    ensures "type" !in OVERRIDDEN && "timestamp" !in OVERRIDDEN
  {
    assert "type"[0] != "name"[0];
  }

  /** Every per-call tree has distinct keys, all of them words, so no entry of a call's top
      level splices an array in. */
  lemma CallTypeMapShape(kind: string)
    requires kind in CALL_TYPES
    ensures CallTypeMap(kind).Some?
    ensures DistinctKeys(CallTypeMap(kind).value) && WordKeyed(CallTypeMap(kind).value)
    ensures NoSplice(CallTypeMap(kind).value)
  {
    BaseShape(kind);
    OverridesShape(kind);
    ArrayMergeWellFormed(BaseMap(kind), Overrides(kind).value);
    ArrayMergeWordKeyed(BaseMap(kind), Overrides(kind).value);
    WordKeyedNoSplice(CallTypeMap(kind).value);
  }

  // ---------------------------------------------------------------------------------------
  // The entries of the trees

  lemma TypeEntry(kind: string)
    requires kind in CALL_TYPES
    ensures Get(CallTypeMap(kind).value, StrKey("type")) == Some(Path(kind + "|static"))
  {
    BaseShape(kind);
    OverridesShape(kind);
    NotOverridden();
    BaseEntry(BaseMap(kind), Overrides(kind).value, 0);
  }

  lemma MessageIdEntry(kind: string)
    requires kind in CALL_TYPES
    ensures Get(CallTypeMap(kind).value, StrKey("messageId"))
         == Some(if kind == "group" then Omit else Path("endpoint.RequestId"))
  {
    BaseShape(kind);
    OverridesShape(kind);
    if kind == "group" {
      OverrideEntry(BaseMap(kind), Overrides(kind).value, 1);
    } else {
      BaseEntry(BaseMap(kind), Overrides(kind).value, 2);
    }
  }

  lemma TimestampEntry(kind: string)
    requires kind in CALL_TYPES
    ensures Get(CallTypeMap(kind).value, StrKey("timestamp"))
         == Some(Path("event_timestamp" + "|" + Callbacks.FORMAT_DATE))
  {
    BaseShape(kind);
    OverridesShape(kind);
    NotOverridden();
    BaseEntry(BaseMap(kind), Overrides(kind).value, 3);
  }

  lemma ContextEntry(kind: string)
    requires kind == "identify" || kind == "group"
    ensures Get(CallTypeMap(kind).value, StrKey("context")) == Some(Omit)
  {
    BaseShape(kind);
    OverridesShape(kind);
    OverrideEntry(BaseMap(kind), Overrides(kind).value, if kind == "identify" then 1 else 0);
  }

  /** No call's tree has a top-level `groupId`: a group call gets one only from the map
      registered for it. */
  lemma GroupIdEntry(kind: string)
    requires kind in CALL_TYPES
    ensures Get(CallTypeMap(kind).value, StrKey("groupId")) == None
  {
    BaseShape(kind);
    OverridesShape(kind);
    assert "groupId" !in OVERRIDDEN;
    assert StrKey("groupId") !in KeysOf(BaseMap(kind));
    GetIffKey(BaseMap(kind), StrKey("groupId"));
    ArrayMergeGetString(BaseMap(kind), Overrides(kind).value, "groupId");
  }

  lemma ContextKept(kind: string)
    requires kind == "page" || kind == "track"
    ensures Get(CallTypeMap(kind).value, StrKey("context"))
         == Some(Nested(ContextMap("endpoint.Demographics.AppVersion", Traits())))
  {
    BaseShape(kind);
    OverridesShape(kind);
    assert StrKey("context") !in KeysOf(Overrides(kind).value);
    BaseEntry(BaseMap(kind), Overrides(kind).value, 5);
  }

  lemma TraitsEntry(kind: string)
    requires kind == "identify"
    ensures Get(CallTypeMap(kind).value, StrKey("traits")) == Some(Nested(Traits()))
  {
    BaseShape(kind);
    OverridesShape(kind);
    OverrideEntry(BaseMap(kind), Overrides(kind).value, 0);
  }

  lemma NameEntry(kind: string)
    requires kind == "page"
    ensures Get(CallTypeMap(kind).value, StrKey("name")) == Some(Path("attributes.title"))
  {
    BaseShape(kind);
    OverridesShape(kind);
    OverrideEntry(BaseMap(kind), Overrides(kind).value, 0);
  }

  lemma EventEntry(kind: string)
    requires kind == "track"
    ensures Get(CallTypeMap(kind).value, StrKey("event")) == Some(Path("event_type"))
  {
    BaseShape(kind);
    OverridesShape(kind);
    OverrideEntry(BaseMap(kind), Overrides(kind).value, 0);
  }

  lemma PropertiesEntry(kind: string)
    requires kind == "track"
    ensures Get(CallTypeMap(kind).value, StrKey("properties")) == Some(Nested(TrackProperties()))
  {
    BaseShape(kind);
    OverridesShape(kind);
    OverrideEntry(BaseMap(kind), Overrides(kind).value, 1);
  }

  // ---------------------------------------------------------------------------------------
  // What each branch yields

  lemma RequestIdText()
    ensures "endpoint" + "." + "RequestId" == "endpoint.RequestId" && '|' !in "endpoint.RequestId"
  {
  }

  lemma RequestIdSegments()
    ensures Explode("endpoint.RequestId", '.') == ["endpoint", "RequestId"]
  {
    RequestIdText();
    Segments2("endpoint", "RequestId");
  }

  /** `endpoint.RequestId`: the request id of the endpoint, when it has one. */
  lemma RequestIdField(hash: Value -> string, source: Value)
    ensures Field(hash, source, Path("endpoint.RequestId")) == Kept(Walk(source, ["endpoint", "RequestId"]))
  {
    RequestIdText();
    RequestIdSegments();
    PathField(hash, source, "endpoint.RequestId");
  }

  /** `name|format_date` on a top-level key fetches the key's value and applies
      `format_date` to it, or yields null when the key is missing. */
  lemma FormatDateFetch(hash: Value -> string, source: Value, name: string)
    requires name != "" && '.' !in name && '|' !in name
    ensures FetchSpec(hash, source, name + "|" + Callbacks.FORMAT_DATE)
         == if Index(source, name).Some? then Callbacks.Apply(Callbacks.FORMAT_DATE, Index(source, name).value, hash)
            else Ok(Null)
  {
    Callbacks.CallbackNames();
    PathWithCallback(hash, source, name, Callbacks.FORMAT_DATE);
    ExplodeNoDelimiter(name, '.');
    WalkOne(source, name);
  }

  /** `name|format_date` on a missing top-level key gives nothing. */
  lemma FormatDateMissing(hash: Value -> string, source: Value, name: string)
    requires name != "" && '.' !in name && '|' !in name
    ensures Index(source, name).None? ==>
              Field(hash, source, Path(name + "|" + Callbacks.FORMAT_DATE)) == None
  {
    FormatDateFetch(hash, source, name);
  }

  /** `name|format_date` on a top-level integer timestamp gives its date. */
  lemma FormatDateField(hash: Value -> string, source: Value, name: string, t: int)
    requires name != "" && '.' !in name && '|' !in name
    ensures Index(source, name) == Some(Int(t)) ==>
              Field(hash, source, Path(name + "|" + Callbacks.FORMAT_DATE)) == Some(Str(Callbacks.FormatDate(t)))
  {
    if Index(source, name) == Some(Int(t)) {
      var e := name + "|" + Callbacks.FORMAT_DATE;
      assert FetchSpec(hash, source, e) == Ok(Str(Callbacks.FormatDate(t))) by {
        FormatDateFetch(hash, source, name);
        Callbacks.FormatDateApplied(t, hash);
      }
      assert |e| > 1;
      FetchedField(hash, source, e, Str(Callbacks.FormatDate(t)));
    }
  }

  lemma EventTimestampField(hash: Value -> string, source: Value, t: int)
    ensures Index(source, "event_timestamp").None? ==>
              Field(hash, source, Path("event_timestamp" + "|" + Callbacks.FORMAT_DATE)) == None
    ensures Index(source, "event_timestamp") == Some(Int(t)) ==>
              Field(hash, source, Path("event_timestamp" + "|" + Callbacks.FORMAT_DATE))
                == Some(Str(Callbacks.FormatDate(t)))
  {
    assert '.' !in "event_timestamp" && '|' !in "event_timestamp";
    FormatDateMissing(hash, source, "event_timestamp");
    FormatDateField(hash, source, "event_timestamp", t);
  }

  lemma AttributesText()
    ensures "endpoint" + "." + "Attributes" == "endpoint.Attributes" && '|' !in "endpoint.Attributes"
  {
  }

  lemma AttributesSegments()
    ensures Explode("endpoint.Attributes", '.') == ["endpoint", "Attributes"]
  {
    AttributesText();
    Segments2("endpoint", "Attributes");
  }

  /** `endpoint.Attributes` fetches the endpoint's attributes, or null when there are none. */
  lemma AttributesFetch(hash: Value -> string, source: Value)
    ensures var w := Walk(source, ["endpoint", "Attributes"]);
            FetchSpec(hash, source, "endpoint.Attributes") == if w.Some? then Ok(w.value) else Ok(Null)
  {
    AttributesText();
    AttributesSegments();
    PlainPath(hash, source, "endpoint.Attributes");
  }

  lemma TrackPropertiesSpliced(hash: Value -> string, source: Value)
    requires var w := Walk(source, ["endpoint", "Attributes"]);
             w.None? || (w.value.Arr? && StringKeyed(w.value.entries))
    ensures TransformSpec(hash, source, TrackProperties()) == Ok(Entries(Walk(source, ["endpoint", "Attributes"])))
  {
    AttributesFetch(hash, source);
    OneSplice(hash, source, "endpoint.Attributes", IntKey(0), Entries(Walk(source, ["endpoint", "Attributes"])));
  }

  /** The track properties are the endpoint's attributes, as they are. */
  lemma TrackPropertiesField(hash: Value -> string, source: Value)
    requires var w := Walk(source, ["endpoint", "Attributes"]);
             w.None? || (w.value.Arr? && StringKeyed(w.value.entries))
    ensures var a := Entries(Walk(source, ["endpoint", "Attributes"]));
            Field(hash, source, Nested(TrackProperties())) == if a == [] then None else Some(Arr(a))
  {
    TrackPropertiesSpliced(hash, source);
  }

  // ---------------------------------------------------------------------------------------
  // The traits tree

  lemma SessionsText()
    ensures "endpoint" + "." + "Metrics" + "." + "sessions" == "endpoint.Metrics.sessions"
    ensures '|' !in "endpoint.Metrics.sessions"
  {
  }

  lemma SessionsSegments()
    ensures Explode("endpoint.Metrics.sessions", '.') == ["endpoint", "Metrics", "sessions"]
  {
    SessionsText();
    Segments3("endpoint", "Metrics", "sessions");
  }

  lemma SessionsField(hash: Value -> string, source: Value)
    ensures FetchSpec(hash, source, "endpoint.Metrics.sessions").Ok?
    ensures Field(hash, source, Path("endpoint.Metrics.sessions"))
         == Kept(Walk(source, ["endpoint", "Metrics", "sessions"]))
  {
    SessionsText();
    SessionsSegments();
    PlainPath(hash, source, "endpoint.Metrics.sessions");
    PathField(hash, source, "endpoint.Metrics.sessions");
  }

  lemma PageViewsText()
    ensures "endpoint" + "." + "Metrics" + "." + "pageViews" == "endpoint.Metrics.pageViews"
    ensures '|' !in "endpoint.Metrics.pageViews"
  {
  }

  lemma PageViewsSegments()
    ensures Explode("endpoint.Metrics.pageViews", '.') == ["endpoint", "Metrics", "pageViews"]
  {
    PageViewsText();
    Segments3("endpoint", "Metrics", "pageViews");
  }

  lemma PageViewsField(hash: Value -> string, source: Value)
    ensures FetchSpec(hash, source, "endpoint.Metrics.pageViews").Ok?
    ensures Field(hash, source, Path("endpoint.Metrics.pageViews"))
         == Kept(Walk(source, ["endpoint", "Metrics", "pageViews"]))
  {
    PageViewsText();
    PageViewsSegments();
    PlainPath(hash, source, "endpoint.Metrics.pageViews");
    PathField(hash, source, "endpoint.Metrics.pageViews");
  }

  lemma UserAttributesText()
    ensures "endpoint" + "." + "User" + "." + "Attributes" == "endpoint.User.Attributes"
    ensures '|' !in "endpoint.User.Attributes"
  {
  }

  lemma UserAttributesSegments()
    ensures Explode("endpoint.User.Attributes", '.') == ["endpoint", "User", "Attributes"]
  {
    UserAttributesText();
    Segments3("endpoint", "User", "Attributes");
  }

  /** `endpoint.User.Attributes` fetches the user's attributes, or null when there are none. */
  lemma UserAttributesFetch(hash: Value -> string, source: Value)
    ensures var w := Walk(source, ["endpoint", "User", "Attributes"]);
            FetchSpec(hash, source, "endpoint.User.Attributes") == if w.Some? then Ok(w.value) else Ok(Null)
  {
    UserAttributesText();
    UserAttributesSegments();
    PlainPath(hash, source, "endpoint.User.Attributes");
  }

  /** An array found at the end of a path that is absent or string-keyed. */
  predicate SpliceableAt(source: Value, segments: seq<string>) {
    var w := Walk(source, segments);
    w.None? || (w.value.Arr? && StringKeyed(w.value.entries))
  }

  /** The two counters the traits start with, each when the endpoint has it. */
  function Counters(source: Value): seq<(Key, Value)> {
    KeptPair(StrKey("sessions"), Kept(Walk(source, ["endpoint", "Metrics", "sessions"])),
             StrKey("pageViews"), Kept(Walk(source, ["endpoint", "Metrics", "pageViews"])))
  }

  /** The traits: the counters, then the endpoint's attributes merged over them, then the
      user's attributes merged over those. */
  function TraitsOf(source: Value): seq<(Key, Value)> {
    MergeInto(MergeInto(Counters(source), Entries(Walk(source, ["endpoint", "Attributes"]))),
              Entries(Walk(source, ["endpoint", "User", "Attributes"])))
  }

  lemma CounterKeys()
    ensures IsWord("sessions") && IsWord("pageViews") && StrKey("sessions") != StrKey("pageViews")
  {
  }

  lemma TraitsHead()
    ensures |Traits()| == 4
    ensures Traits()[0] == (StrKey("sessions"), Path("endpoint.Metrics.sessions"))
    ensures Traits()[1] == (StrKey("pageViews"), Path("endpoint.Metrics.pageViews"))
  {
  }

  /** The first two entries of the traits tree store the counters. */
  lemma CountersPrefix(hash: Value -> string, source: Value)
    ensures TransformPrefix(hash, source, Traits(), 2) == Ok(Counters(source))
  {
    TraitsHead();
    SessionsField(hash, source);
    PageViewsField(hash, source);
    CounterKeys();
    KeptPairPrefix(hash, source, Traits());
  }

  /** The traits tree gives the traits. */
  lemma TraitsValue(hash: Value -> string, source: Value)
    requires SpliceableAt(source, ["endpoint", "Attributes"])
    requires SpliceableAt(source, ["endpoint", "User", "Attributes"])
    ensures TransformSpec(hash, source, Traits()) == Ok(TraitsOf(source))
  {
    var c := Counters(source);
    var a := Entries(Walk(source, ["endpoint", "Attributes"]));
    var u := Entries(Walk(source, ["endpoint", "User", "Attributes"]));
    CountersPrefix(hash, source);
    AttributesFetch(hash, source);
    UserAttributesFetch(hash, source);
    StringSplice(hash, source, c, IntKey(0), "endpoint.Attributes", a);
    assert TransformPrefix(hash, source, Traits(), 3) == Ok(MergeInto(c, a));
    StringSplice(hash, source, MergeInto(c, a), IntKey(1), "endpoint.User.Attributes", u);
  }

  /** The counters keep the first places of the traits: with both present, `sessions` comes
      first and `pageViews` second, whatever the attributes hold. */
  lemma TraitsOrder(source: Value)
    requires SpliceableAt(source, ["endpoint", "Attributes"])
    requires SpliceableAt(source, ["endpoint", "User", "Attributes"])
    ensures StringKeyed(TraitsOf(source))
    ensures |Counters(source)| <= |TraitsOf(source)|
    ensures KeysOf(TraitsOf(source))[..|Counters(source)|] == KeysOf(Counters(source))
    ensures Kept(Walk(source, ["endpoint", "Metrics", "sessions"])).Some? &&
            Kept(Walk(source, ["endpoint", "Metrics", "pageViews"])).Some? ==>
              TraitsOf(source)[0].0 == StrKey("sessions") && TraitsOf(source)[1].0 == StrKey("pageViews")
  {
    var s := Kept(Walk(source, ["endpoint", "Metrics", "sessions"]));
    var p := Kept(Walk(source, ["endpoint", "Metrics", "pageViews"]));
    MergeTwiceKeepsKeys(Counters(source), Entries(Walk(source, ["endpoint", "Attributes"])),
                        Entries(Walk(source, ["endpoint", "User", "Attributes"])));
    if s.Some? && p.Some? {
      KeptPairLeads(StrKey("sessions"), s, StrKey("pageViews"), p, TraitsOf(source));
    }
  }

  /** Each trait comes from the user's attributes, else the endpoint's, else the counters. */
  lemma TraitsFields(source: Value, s: string)
    requires SpliceableAt(source, ["endpoint", "Attributes"])
    requires SpliceableAt(source, ["endpoint", "User", "Attributes"])
    ensures var a := Entries(Walk(source, ["endpoint", "Attributes"]));
            var u := Entries(Walk(source, ["endpoint", "User", "Attributes"]));
            Get(TraitsOf(source), StrKey(s))
              == if StrKey(s) in KeysOf(u) then Get(u, StrKey(s))
                 else if StrKey(s) in KeysOf(a) then Get(a, StrKey(s))
                 else Get(Counters(source), StrKey(s))
  {
    var a := Entries(Walk(source, ["endpoint", "Attributes"]));
    var u := Entries(Walk(source, ["endpoint", "User", "Attributes"]));
    MergeIntoGetString(Counters(source), a, s);
    MergeIntoGetString(MergeInto(Counters(source), a), u, s);
  }

  // ---------------------------------------------------------------------------------------
  // The app version

  lemma AppVersionText()
    ensures "endpoint" + "." + "Demographics" + "." + "AppVersion" == "endpoint.Demographics.AppVersion"
    ensures '|' !in "endpoint.Demographics.AppVersion"
  {
  }

  lemma AppVersionSegments()
    ensures Explode("endpoint.Demographics.AppVersion", '.') == ["endpoint", "Demographics", "AppVersion"]
  {
    AppVersionText();
    Segments3("endpoint", "Demographics", "AppVersion");
  }

  /** A walk that misses its second segment finds nothing. */
  lemma WalkMissesSecond(source: Value, a: string, b: string, c: string)
    requires Index(source, a).Some? && Index(Index(source, a).value, b).None?
    ensures Walk(source, [a, b, c]) == None
  {
    assert [a, b, c][1..] == [b, c];
  }

  /** An event whose endpoint holds `Demographic.AppVersion` and no `Demographics`. */
  function SingularDemographic(): Value {
    Arr([(StrKey("endpoint"), Arr([(StrKey("Demographic"), Arr([(StrKey("AppVersion"), Str("1.0"))]))]))])
  }

  /** Looking a word up in an array of one entry. */
  lemma IndexSingle(k: string, v: Value, w: string)
    requires IsWord(w) && v != Null
    ensures Index(Arr([(StrKey(k), v)]), w) == if w == k then Some(v) else None
  {
    WordKey(w);
    GetIffKey([(StrKey(k), v)], StrKey(w));
    assert KeysOf([(StrKey(k), v)]) == [StrKey(k)];
    if w == k {
      GetDistinct([(StrKey(k), v)], 0);
    }
  }

  lemma SingularDemographicHasVersion()
    ensures Walk(SingularDemographic(), ["endpoint", "Demographic", "AppVersion"]) == Some(Str("1.0"))
    ensures Index(SingularDemographic(), "endpoint").Some?
    ensures Index(Index(SingularDemographic(), "endpoint").value, "Demographics").None?
  {
    var version := Arr([(StrKey("AppVersion"), Str("1.0"))]);
    var demographic := Arr([(StrKey("Demographic"), version)]);
    IndexSingle("endpoint", demographic, "endpoint");
    IndexSingle("Demographic", version, "Demographic");
    IndexSingle("Demographic", version, "Demographics");
    IndexSingle("AppVersion", Str("1.0"), "AppVersion");
    assert ["endpoint", "Demographic", "AppVersion"][1..] == ["Demographic", "AppVersion"];
    assert ["Demographic", "AppVersion"][1..] == ["AppVersion"];
    WalkOne(version, "AppVersion");
  }

  // ---------------------------------------------------------------------------------------
  // The fields of a call

  /** `transform($source, $this->maps[$kind])`. */
  function CallOf(hash: Value -> string, source: Value, kind: string): (r: Outcome<seq<(Key, Value)>>)
    requires kind in CALL_TYPES
    ensures r.Ok? ==> DistinctKeys(r.value)
  {
    TransformSpec(hash, source, CallTypeMap(kind).value)
  }

  /** A call holds under each key of its tree the field of that key's branch. */
  lemma CallField(hash: Value -> string, source: Value, kind: string, s: string, b: Branch)
    requires kind in CALL_TYPES && CallOf(hash, source, kind).Ok?
    requires Get(CallTypeMap(kind).value, StrKey(s)) == Some(b)
    ensures Get(CallOf(hash, source, kind).value, StrKey(s)) == Field(hash, source, b)
  {
    CallTypeMapShape(kind);
    CallEntry(hash, source, CallTypeMap(kind).value, StrKey(s), b);
  }

  /** Every call carries its kind under `type`. */
  lemma CallType(hash: Value -> string, source: Value, kind: string)
    requires kind in CALL_TYPES && CallOf(hash, source, kind).Ok?
    ensures Get(CallOf(hash, source, kind).value, StrKey("type")) == Some(Str(kind))
  {
    TypeEntry(kind);
    CallField(hash, source, kind, "type", Path(kind + "|static"));
    TypeField(hash, source, kind);
  }

  /** Identify and group calls have no `context`. */
  lemma NoContext(hash: Value -> string, source: Value, kind: string)
    requires (kind == "identify" || kind == "group") && CallOf(hash, source, kind).Ok?
    ensures Get(CallOf(hash, source, kind).value, StrKey("context")) == None
  {
    ContextEntry(kind);
    CallField(hash, source, kind, "context", Omit);
  }

  /** Group calls have no message id; the others carry the endpoint's request id. */
  lemma MessageId(hash: Value -> string, source: Value, kind: string)
    requires kind in CALL_TYPES && CallOf(hash, source, kind).Ok?
    ensures Get(CallOf(hash, source, kind).value, StrKey("messageId"))
         == if kind == "group" then None else Kept(Walk(source, ["endpoint", "RequestId"]))
  {
    MessageIdEntry(kind);
    CallField(hash, source, kind, "messageId", if kind == "group" then Omit else Path("endpoint.RequestId"));
    if kind != "group" {
      RequestIdField(hash, source);
    }
  }

  /** `timestamp` is the event's `event_timestamp`, in seconds or milliseconds, as an ISO
      8601 date. */
  lemma Timestamp(hash: Value -> string, source: Value, kind: string, t: int)
    requires kind in CALL_TYPES && CallOf(hash, source, kind).Ok?
    ensures Index(source, "event_timestamp") == Some(Int(t)) ==>
              Get(CallOf(hash, source, kind).value, StrKey("timestamp")) == Some(Str(Callbacks.FormatDate(t)))
    ensures Index(source, "event_timestamp").None? ==>
              Get(CallOf(hash, source, kind).value, StrKey("timestamp")) == None
  {
    TimestampEntry(kind);
    CallField(hash, source, kind, "timestamp", Path("event_timestamp" + "|" + Callbacks.FORMAT_DATE));
    EventTimestampField(hash, source, t);
  }

  /** A track call's `event` is the event type, when the event has one. */
  lemma TrackEvent(hash: Value -> string, source: Value, kind: string)
    requires kind == "track" && CallOf(hash, source, kind).Ok?
    ensures Get(CallOf(hash, source, kind).value, StrKey("event")) == Kept(Index(source, "event_type"))
  {
    EventEntry(kind);
    CallField(hash, source, kind, "event", Path("event_type"));
    EventTypeField(hash, source);
  }

  /** A track call's `properties` are exactly the endpoint's attributes; they are left out
      when the endpoint has none. */
  lemma TrackPropertiesAttributes(hash: Value -> string, source: Value, kind: string)
    requires kind == "track" && CallOf(hash, source, kind).Ok?
    requires var w := Walk(source, ["endpoint", "Attributes"]);
             w.None? || (w.value.Arr? && StringKeyed(w.value.entries))
    ensures var a := Entries(Walk(source, ["endpoint", "Attributes"]));
            Get(CallOf(hash, source, kind).value, StrKey("properties")) == if a == [] then None else Some(Arr(a))
  {
    PropertiesEntry(kind);
    CallField(hash, source, kind, "properties", Nested(TrackProperties()));
    TrackPropertiesField(hash, source);
  }

  /** A page call's `name` is the page title. */
  lemma PageName(hash: Value -> string, source: Value, kind: string)
    requires kind == "page" && CallOf(hash, source, kind).Ok?
    ensures Get(CallOf(hash, source, kind).value, StrKey("name")) == Kept(Walk(source, ["attributes", "title"]))
  {
    NameEntry(kind);
    CallField(hash, source, kind, "name", Path("attributes.title"));
    TitleField(hash, source);
  }

  /** Whenever a page or track call keeps its context, `context.app` holds the version read
      from `endpoint.Demographics.AppVersion`, or nothing. */
  lemma ContextAppVersion(hash: Value -> string, source: Value, kind: string)
    requires (kind == "page" || kind == "track") && CallOf(hash, source, kind).Ok?
    ensures var c := Get(CallOf(hash, source, kind).value, StrKey("context"));
            c.Some? ==> (c.value.Arr? &&
              Get(c.value.entries, StrKey("app")) == AppOf(Walk(source, ["endpoint", "Demographics", "AppVersion"])))
  {
    ContextKept(kind);
    CallField(hash, source, kind, "context", Nested(ContextMap("endpoint.Demographics.AppVersion", Traits())));
    AppVersionText();
    AppVersionSegments();
    ContextAppOf(hash, source, "endpoint.Demographics.AppVersion", Traits());
  }

  /** On an endpoint that has no `Demographics`, which includes one whose app version sits
      under `Demographic` (SingularDemographicHasVersion), the context never has an `app`. */
  lemma AppVersionMissed(hash: Value -> string, source: Value, kind: string)
    requires (kind == "page" || kind == "track") && CallOf(hash, source, kind).Ok?
    requires Index(source, "endpoint").Some? && Index(Index(source, "endpoint").value, "Demographics").None?
    ensures var c := Get(CallOf(hash, source, kind).value, StrKey("context"));
            c.Some? ==> c.value.Arr? && Get(c.value.entries, StrKey("app")) == None
  {
    ContextAppVersion(hash, source, kind);
    WalkMissesSecond(source, "endpoint", "Demographics", "AppVersion");
  }

  /** An identify call's `traits` are the traits, left out when there are none. */
  lemma IdentifyTraits(hash: Value -> string, source: Value, kind: string)
    requires kind == "identify" && CallOf(hash, source, kind).Ok?
    requires SpliceableAt(source, ["endpoint", "Attributes"])
    requires SpliceableAt(source, ["endpoint", "User", "Attributes"])
    ensures Get(CallOf(hash, source, kind).value, StrKey("traits"))
         == if TraitsOf(source) == [] then None else Some(Arr(TraitsOf(source)))
  {
    TraitsEntry(kind);
    CallField(hash, source, kind, "traits", Nested(Traits()));
    TraitsValue(hash, source);
    NestedField(hash, source, Traits());
  }
}
