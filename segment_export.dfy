/**
 * The per-call mapping trees of `Segment_Transformer`, the transformer of the data export:
 * a base tree shared by every call, overridden per call kind with `array_merge`.
 */
module SegmentExport {
  import opened Php
  import opened Mapping
  import opened SegmentMaps
  import Callbacks

  /** `context.traits`: the endpoint's attributes, user attributes and metrics spliced in. */
  function Traits(): Spec {
    [Splice(0, "endpoint.Attributes"), Splice(1, "endpoint.User.UserAttributes"), Splice(2, "endpoint.Metrics")]
  }

  /** `$mapping`, the base tree of a call of kind `kind`, with its keys in order. */
  function BaseMap(kind: string): (r: Spec)
    ensures |r| == 7 && r[0].0 == StrKey("type") && r[1].0 == StrKey("anonymousId")
    ensures r[2].0 == StrKey("timestamp") && r[3].0 == StrKey("receivedAt") && r[4].0 == StrKey("userId")
    ensures r[5].0 == StrKey("messageId") && r[6].0 == StrKey("context")
  {
    [Leaf("type", kind + "|static"),
     Leaf("anonymousId", "endpoint.Id"),
     Leaf("timestamp", "event_timestamp" + "|" + Callbacks.MILLISECONDS_TO_ISO8601),
     Leaf("receivedAt", "arrival_timestamp" + "|" + Callbacks.MILLISECONDS_TO_ISO8601),
     Leaf("userId", "endpoint.User.UserId"),
     Leaf("messageId", "|" + Callbacks.HASH_EVENT),
     Tree("context", ContextMap("endpoint.Demographic.AppVersion", Traits()))]
  }

  /** A track call's `properties`: the event's attributes, then its metrics. */
  function TrackProperties(): Spec {
    [Splice(0, "attributes"), Splice(1, "metrics")]
  }

  /** The entries the switch on the call kind merges over the base tree; nothing for a kind
      the switch does not know. */
  function Overrides(kind: string): (r: Option<Spec>)
    ensures r.Some? <==> kind in CALL_TYPES
    ensures r.Some? ==> |r.value| == 2
  {
    match kind
    case "identify" => Some([Tree("traits", Traits()), Drop("context")])
    case "page" => Some([Leaf("name", "attributes.title"), Tree("properties", PageMap())])
    case "track" => Some([Leaf("event", "event_type"), Tree("properties", TrackProperties())])
    case "group" => Some([Drop("context"), Drop("messageId")])
    case _ => None
  }

  /** `get_segment_call_type_map($kind)`: a tree for each of the four call kinds, and null
      for any other kind (the switch leaves `$type_mapping` unset). */
  function CallTypeMap(kind: string): (r: Option<Spec>)
    ensures r.Some? <==> kind in CALL_TYPES
  {
    match Overrides(kind)
    case None => None
    case Some(o) => Some(ArrayMerge(BaseMap(kind), o))
  }

  // ---------------------------------------------------------------------------------------
  // The shape of the trees

  lemma BaseShape(kind: string)
    ensures DistinctKeys(BaseMap(kind)) && WordKeyed(BaseMap(kind))
  {
    var b := BaseMap(kind);
    assert "messageId"[0] != "timestamp"[0];
    assert forall i :: 0 <= i < |b| ==> b[i].0.StrKey? && IsWord(b[i].0.s);
    assert forall k :: k in KeysOf(b) ==> exists i :: 0 <= i < |b| && k == b[i].0;
  }

  /** The keys the switch can override. */
  const OVERRIDDEN: set<string> := {"traits", "context", "name", "properties", "event", "messageId"}

  lemma OverridesShape(kind: string)
    requires kind in CALL_TYPES
    ensures Overrides(kind).Some? && DistinctKeys(Overrides(kind).value) && WordKeyed(Overrides(kind).value)
    ensures forall k :: k in KeysOf(Overrides(kind).value) ==>
              k.StrKey? && k.s in OVERRIDDEN && (k.s == "messageId" ==> kind == "group")
  {
    var o := Overrides(kind).value;
    assert |o| == 2 && KeysOf(o) == [o[0].0, o[1].0];
  }

  lemma NotOverridden()
    ensures "type" !in OVERRIDDEN && "anonymousId" !in OVERRIDDEN && "timestamp" !in OVERRIDDEN
    ensures "receivedAt" !in OVERRIDDEN && "userId" !in OVERRIDDEN
  {
    assert "type"[0] != "name"[0];
  }

  /** Every per-call tree has distinct keys, all of them words, so no entry of a call's top
      level splices an array in. */
  lemma CallTypeMapShape(kind: string)
    requires kind in CALL_TYPES
    ensures CallTypeMap(kind).Some?
    ensures DistinctKeys(CallTypeMap(kind).value) && WordKeyed(CallTypeMap(kind).value)
    ensures NoSplice(CallTypeMap(kind).value)
  {
    BaseShape(kind);
    OverridesShape(kind);
    ArrayMergeWellFormed(BaseMap(kind), Overrides(kind).value);
    ArrayMergeWordKeyed(BaseMap(kind), Overrides(kind).value);
    WordKeyedNoSplice(CallTypeMap(kind).value);
  }

  // ---------------------------------------------------------------------------------------
  // The entries of the trees

  /** Every call's tree takes `type` from the base tree. */
  lemma TypeEntry(kind: string)
    requires kind in CALL_TYPES
    ensures Get(CallTypeMap(kind).value, StrKey("type")) == Some(Path(kind + "|static"))
  {
    BaseShape(kind);
    OverridesShape(kind);
    NotOverridden();
    BaseEntry(BaseMap(kind), Overrides(kind).value, 0);
  }

  lemma TimestampEntry(kind: string)
    requires kind in CALL_TYPES
    ensures Get(CallTypeMap(kind).value, StrKey("timestamp"))
         == Some(Path("event_timestamp" + "|" + Callbacks.MILLISECONDS_TO_ISO8601))
  {
    BaseShape(kind);
    OverridesShape(kind);
    NotOverridden();
    BaseEntry(BaseMap(kind), Overrides(kind).value, 2);
  }

  lemma ReceivedAtEntry(kind: string)
    requires kind in CALL_TYPES
    ensures Get(CallTypeMap(kind).value, StrKey("receivedAt"))
         == Some(Path("arrival_timestamp" + "|" + Callbacks.MILLISECONDS_TO_ISO8601))
  {
    BaseShape(kind);
    OverridesShape(kind);
    NotOverridden();
    BaseEntry(BaseMap(kind), Overrides(kind).value, 3);
  }

  lemma MessageIdEntry(kind: string)
    requires kind in CALL_TYPES
    ensures Get(CallTypeMap(kind).value, StrKey("messageId"))
         == Some(if kind == "group" then Omit else Path("|" + Callbacks.HASH_EVENT))
  {
    var b, o := BaseMap(kind), Overrides(kind).value;
    assert CallTypeMap(kind).value == ArrayMerge(b, o);
    BaseShape(kind);
    OverridesShape(kind);
    if kind == "group" {
      assert o[1] == Drop("messageId");
      OverrideEntry(b, o, 1);
    } else {
      assert b[5] == Leaf("messageId", "|" + Callbacks.HASH_EVENT);
      BaseEntry(b, o, 5);
    }
  }

  lemma ContextEntry(kind: string)
    requires kind == "identify" || kind == "group"
    ensures Get(CallTypeMap(kind).value, StrKey("context")) == Some(Omit)
  {
    var b, o := BaseMap(kind), Overrides(kind).value;
    assert CallTypeMap(kind).value == ArrayMerge(b, o);
    BaseShape(kind);
    OverridesShape(kind);
    if kind == "identify" {
      assert o[1] == Drop("context");
      OverrideEntry(b, o, 1);
    } else {
      assert o[0] == Drop("context");
      OverrideEntry(b, o, 0);
    }
  }

  /** No call's tree has a top-level `groupId`: a group call gets one only from the map
      registered for it. */
  lemma GroupIdEntry(kind: string)
    requires kind in CALL_TYPES
    ensures Get(CallTypeMap(kind).value, StrKey("groupId")) == None
  {
    BaseShape(kind);
    OverridesShape(kind);
    assert "groupId" !in OVERRIDDEN;
    assert StrKey("groupId") !in KeysOf(BaseMap(kind));
    GetIffKey(BaseMap(kind), StrKey("groupId"));
    ArrayMergeGetString(BaseMap(kind), Overrides(kind).value, "groupId");
  }

  lemma ContextKept(kind: string)
    requires kind == "page" || kind == "track"
    ensures Get(CallTypeMap(kind).value, StrKey("context"))
         == Some(Nested(ContextMap("endpoint.Demographic.AppVersion", Traits())))
  {
    BaseShape(kind);
    OverridesShape(kind);
    ContextNotOverridden(kind);
    BaseEntry(BaseMap(kind), Overrides(kind).value, 6);
  }

  /** Page and track calls keep the base tree's `context`. */
  lemma ContextNotOverridden(kind: string)
    requires kind == "page" || kind == "track"
    ensures StrKey("context") !in KeysOf(Overrides(kind).value)
  {
    if kind == "page" {
      assert "context"[0] != "name"[0] && "context"[0] != "properties"[0];
    } else {
      assert "context"[0] != "event"[0] && "context"[0] != "properties"[0];
    }
  }

  lemma TraitsEntry(kind: string)
    requires kind == "identify"
    ensures Get(CallTypeMap(kind).value, StrKey("traits")) == Some(Nested(Traits()))
  {
    BaseShape(kind);
    OverridesShape(kind);
    OverrideEntry(BaseMap(kind), Overrides(kind).value, 0);
  }

  lemma NameEntry(kind: string)
    requires kind == "page"
    ensures Get(CallTypeMap(kind).value, StrKey("name")) == Some(Path("attributes.title"))
  {
    BaseShape(kind);
    OverridesShape(kind);
    OverrideEntry(BaseMap(kind), Overrides(kind).value, 0);
  }

  lemma EventEntry(kind: string)
    requires kind == "track"
    ensures Get(CallTypeMap(kind).value, StrKey("event")) == Some(Path("event_type"))
  {
    BaseShape(kind);
    OverridesShape(kind);
    OverrideEntry(BaseMap(kind), Overrides(kind).value, 0);
  }

  lemma PropertiesEntry(kind: string)
    requires kind == "track"
    ensures Get(CallTypeMap(kind).value, StrKey("properties")) == Some(Nested(TrackProperties()))
  {
    BaseShape(kind);
    OverridesShape(kind);
    OverrideEntry(BaseMap(kind), Overrides(kind).value, 1);
  }

  // ---------------------------------------------------------------------------------------
  // What each branch yields

  /** `|hash_event`: the path is empty, so the value hashed is the one under the key `''`. */
  lemma HashedField(hash: Value -> string, source: Value)
    ensures Field(hash, source, Path("|" + Callbacks.HASH_EVENT))
         == if Index(source, "").Some? then Some(Str(hash(Index(source, "").value))) else None
  {
    Callbacks.CallbackNames();
    assert "" + "|" + Callbacks.HASH_EVENT == "|" + Callbacks.HASH_EVENT;
    PathWithCallback(hash, source, "", Callbacks.HASH_EVENT);
    ExplodeNoDelimiter("", '.');
    WalkOne(source, "");
    if Index(source, "").Some? {
      Callbacks.HashEventApplied(Index(source, "").value, hash);
    }
  }

  /** `name|milliseconds_to_iso8601` on a top-level key fetches the key's value and converts
      it, or yields null when the key is missing. */
  lemma MillisecondsFetch(hash: Value -> string, source: Value, name: string)
    requires name != "" && '.' !in name && '|' !in name
    ensures FetchSpec(hash, source, name + "|" + Callbacks.MILLISECONDS_TO_ISO8601)
         == if Index(source, name).Some?
            then Callbacks.Apply(Callbacks.MILLISECONDS_TO_ISO8601, Index(source, name).value, hash)
            else Ok(Null)
  {
    Callbacks.CallbackNames();
    PathWithCallback(hash, source, name, Callbacks.MILLISECONDS_TO_ISO8601);
    ExplodeNoDelimiter(name, '.');
    WalkOne(source, name);
  }

  /** `name|milliseconds_to_iso8601` on a missing top-level key gives nothing. */
  lemma MillisecondsMissing(hash: Value -> string, source: Value, name: string)
    requires name != "" && '.' !in name && '|' !in name
    ensures Index(source, name).None? ==>
              Field(hash, source, Path(name + "|" + Callbacks.MILLISECONDS_TO_ISO8601)) == None
  {
    MillisecondsFetch(hash, source, name);
  }

  /** `name|milliseconds_to_iso8601` on a top-level integer timestamp gives its date. */
  lemma MillisecondsField(hash: Value -> string, source: Value, name: string, t: int)
    requires name != "" && '.' !in name && '|' !in name
    ensures Index(source, name) == Some(Int(t)) ==>
              Field(hash, source, Path(name + "|" + Callbacks.MILLISECONDS_TO_ISO8601))
                == Some(Str(Callbacks.MillisecondsToIso8601(t)))
  {
    if Index(source, name) == Some(Int(t)) {
      var e := name + "|" + Callbacks.MILLISECONDS_TO_ISO8601;
      assert FetchSpec(hash, source, e) == Ok(Str(Callbacks.MillisecondsToIso8601(t))) by {
        MillisecondsFetch(hash, source, name);
        Callbacks.MillisecondsApplied(t, hash);
      }
      assert |e| > 1;
      FetchedField(hash, source, e, Str(Callbacks.MillisecondsToIso8601(t)));
    }
  }

  lemma EventTimestampField(hash: Value -> string, source: Value, t: int)
    ensures Index(source, "event_timestamp").None? ==>
              Field(hash, source, Path("event_timestamp" + "|" + Callbacks.MILLISECONDS_TO_ISO8601)) == None
    ensures Index(source, "event_timestamp") == Some(Int(t)) ==>
              Field(hash, source, Path("event_timestamp" + "|" + Callbacks.MILLISECONDS_TO_ISO8601))
                == Some(Str(Callbacks.MillisecondsToIso8601(t)))
  {
    assert '.' !in "event_timestamp" && '|' !in "event_timestamp";
    MillisecondsMissing(hash, source, "event_timestamp");
    MillisecondsField(hash, source, "event_timestamp", t);
  }

  lemma ArrivalTimestampField(hash: Value -> string, source: Value, t: int)
    ensures Index(source, "arrival_timestamp").None? ==>
              Field(hash, source, Path("arrival_timestamp" + "|" + Callbacks.MILLISECONDS_TO_ISO8601)) == None
    ensures Index(source, "arrival_timestamp") == Some(Int(t)) ==>
              Field(hash, source, Path("arrival_timestamp" + "|" + Callbacks.MILLISECONDS_TO_ISO8601))
                == Some(Str(Callbacks.MillisecondsToIso8601(t)))
  {
    assert '.' !in "arrival_timestamp" && '|' !in "arrival_timestamp";
    MillisecondsMissing(hash, source, "arrival_timestamp");
    MillisecondsField(hash, source, "arrival_timestamp", t);
  }

  lemma AttributesSplice(hash: Value -> string, source: Value)
    requires Index(source, "attributes").None? || Index(source, "attributes").value.Arr?
    ensures var a := Entries(Index(source, "attributes"));
            FetchSpec(hash, source, "attributes") == Ok(Arr(a))
            || (FetchSpec(hash, source, "attributes") == Ok(Null) && a == [])
  {
    assert '.' !in "attributes" && '|' !in "attributes";
    KeySplice(hash, source, "attributes");
  }

  lemma MetricsSplice(hash: Value -> string, source: Value)
    requires Index(source, "metrics").None? || Index(source, "metrics").value.Arr?
    ensures var m := Entries(Index(source, "metrics"));
            FetchSpec(hash, source, "metrics") == Ok(Arr(m))
            || (FetchSpec(hash, source, "metrics") == Ok(Null) && m == [])
  {
    assert '.' !in "metrics" && '|' !in "metrics";
    KeySplice(hash, source, "metrics");
  }

  lemma TrackPropertiesSpliced(hash: Value -> string, source: Value)
    requires Index(source, "attributes").None? || Index(source, "attributes").value.Arr?
    requires Index(source, "metrics").None? || Index(source, "metrics").value.Arr?
    ensures TransformSpec(hash, source, TrackProperties())
         == Ok(SplicedPair(Entries(Index(source, "attributes")), Entries(Index(source, "metrics"))))
  {
    AttributesSplice(hash, source);
    MetricsSplice(hash, source);
    TwoSplices(hash, source, "attributes", "metrics", IntKey(0), IntKey(1),
               Entries(Index(source, "attributes")), Entries(Index(source, "metrics")));
  }

  /** The attributes, then the metrics, spliced in; nothing when both are missing or empty. */
  lemma TrackPropertiesField(hash: Value -> string, source: Value)
    requires Index(source, "attributes").None? || Index(source, "attributes").value.Arr?
    requires Index(source, "metrics").None? || Index(source, "metrics").value.Arr?
    ensures var a := Entries(Index(source, "attributes"));
            var m := Entries(Index(source, "metrics"));
            Field(hash, source, Nested(TrackProperties()))
              == if a == [] && m == [] then None else Some(Arr(SplicedPair(a, m)))
  {
    TrackPropertiesSpliced(hash, source);
    SplicedPairEmpty(Entries(Index(source, "attributes")), Entries(Index(source, "metrics")));
  }

  lemma AppVersionText()
    ensures "endpoint" + "." + "Demographic" + "." + "AppVersion" == "endpoint.Demographic.AppVersion"
    ensures '|' !in "endpoint.Demographic.AppVersion"
  {
  }

  lemma AppVersionSegments()
    ensures Explode("endpoint.Demographic.AppVersion", '.') == ["endpoint", "Demographic", "AppVersion"]
  {
    AppVersionText();
    Segments3("endpoint", "Demographic", "AppVersion");
  }

  // ---------------------------------------------------------------------------------------
  // The traits tree

  lemma EndpointAttributesText()
    ensures "endpoint" + "." + "Attributes" == "endpoint.Attributes" && '|' !in "endpoint.Attributes"
  {
  }

  lemma EndpointAttributesFetch(hash: Value -> string, source: Value)
    ensures var w := Walk(source, ["endpoint", "Attributes"]);
            FetchSpec(hash, source, "endpoint.Attributes") == if w.Some? then Ok(w.value) else Ok(Null)
  {
    EndpointAttributesText();
    Segments2("endpoint", "Attributes");
    PlainPath(hash, source, "endpoint.Attributes");
  }

  lemma UserAttributesText()
    ensures "endpoint" + "." + "User" + "." + "UserAttributes" == "endpoint.User.UserAttributes"
    ensures '|' !in "endpoint.User.UserAttributes"
  {
  }

  lemma UserAttributesFetch(hash: Value -> string, source: Value)
    ensures var w := Walk(source, ["endpoint", "User", "UserAttributes"]);
            FetchSpec(hash, source, "endpoint.User.UserAttributes") == if w.Some? then Ok(w.value) else Ok(Null)
  {
    UserAttributesText();
    Segments3("endpoint", "User", "UserAttributes");
    PlainPath(hash, source, "endpoint.User.UserAttributes");
  }

  lemma EndpointMetricsText()
    ensures "endpoint" + "." + "Metrics" == "endpoint.Metrics" && '|' !in "endpoint.Metrics"
  {
  }

  lemma EndpointMetricsFetch(hash: Value -> string, source: Value)
    ensures var w := Walk(source, ["endpoint", "Metrics"]);
            FetchSpec(hash, source, "endpoint.Metrics") == if w.Some? then Ok(w.value) else Ok(Null)
  {
    EndpointMetricsText();
    Segments2("endpoint", "Metrics");
    PlainPath(hash, source, "endpoint.Metrics");
  }

  /** An array found at the end of a path that is absent or string-keyed. */
  predicate SpliceableAt(source: Value, segments: seq<string>) {
    var w := Walk(source, segments);
    w.None? || (w.value.Arr? && StringKeyed(w.value.entries))
  }

  /** The traits: the endpoint's attributes, then the user's attributes merged over them, then
      the endpoint's metrics merged over those. */
  function TraitsOf(source: Value): seq<(Key, Value)> {
    MergeInto(MergeInto(MergeInto([], Entries(Walk(source, ["endpoint", "Attributes"]))),
                        Entries(Walk(source, ["endpoint", "User", "UserAttributes"]))),
              Entries(Walk(source, ["endpoint", "Metrics"])))
  }

  lemma TraitsPrefix(hash: Value -> string, source: Value)
    requires SpliceableAt(source, ["endpoint", "Attributes"])
    requires SpliceableAt(source, ["endpoint", "User", "UserAttributes"])
    ensures TransformPrefix(hash, source, Traits(), 2)
         == Ok(MergeInto(MergeInto([], Entries(Walk(source, ["endpoint", "Attributes"]))),
                         Entries(Walk(source, ["endpoint", "User", "UserAttributes"]))))
  {
    var a := Entries(Walk(source, ["endpoint", "Attributes"]));
    var u := Entries(Walk(source, ["endpoint", "User", "UserAttributes"]));
    EndpointAttributesFetch(hash, source);
    UserAttributesFetch(hash, source);
    assert TransformPrefix(hash, source, Traits(), 0) == Ok([]);
    StringSplice(hash, source, [], IntKey(0), "endpoint.Attributes", a);
    assert TransformPrefix(hash, source, Traits(), 1) == Ok(MergeInto([], a));
    StringSplice(hash, source, MergeInto([], a), IntKey(1), "endpoint.User.UserAttributes", u);
  }

  /** The traits tree gives the traits. */
  lemma TraitsValue(hash: Value -> string, source: Value)
    requires SpliceableAt(source, ["endpoint", "Attributes"])
    requires SpliceableAt(source, ["endpoint", "User", "UserAttributes"])
    requires SpliceableAt(source, ["endpoint", "Metrics"])
    ensures TransformSpec(hash, source, Traits()) == Ok(TraitsOf(source))
  {
    var a := Entries(Walk(source, ["endpoint", "Attributes"]));
    var u := Entries(Walk(source, ["endpoint", "User", "UserAttributes"]));
    var m := Entries(Walk(source, ["endpoint", "Metrics"]));
    TraitsPrefix(hash, source);
    EndpointMetricsFetch(hash, source);
    MergeIntoStringKeyed([], a);
    MergeIntoStringKeyed(MergeInto([], a), u);
    assert Traits()[2] == (IntKey(2), Path("endpoint.Metrics"));
    StringSplice(hash, source, MergeInto(MergeInto([], a), u), IntKey(2), "endpoint.Metrics", m);
  }

  /** Each trait comes from the metrics, else the user's attributes, else the endpoint's. */
  lemma TraitsFields(source: Value, s: string)
    requires SpliceableAt(source, ["endpoint", "Attributes"])
    requires SpliceableAt(source, ["endpoint", "User", "UserAttributes"])
    requires SpliceableAt(source, ["endpoint", "Metrics"])
    ensures var a := Entries(Walk(source, ["endpoint", "Attributes"]));
            var u := Entries(Walk(source, ["endpoint", "User", "UserAttributes"]));
            var m := Entries(Walk(source, ["endpoint", "Metrics"]));
            Get(TraitsOf(source), StrKey(s))
              == if StrKey(s) in KeysOf(m) then Get(m, StrKey(s))
                 else if StrKey(s) in KeysOf(u) then Get(u, StrKey(s))
                 else Get(a, StrKey(s))
  {
    var a := Entries(Walk(source, ["endpoint", "Attributes"]));
    var u := Entries(Walk(source, ["endpoint", "User", "UserAttributes"]));
    var m := Entries(Walk(source, ["endpoint", "Metrics"]));
    MergeIntoGetString([], a, s);
    MergeIntoGetString(MergeInto([], a), u, s);
    MergeIntoGetString(MergeInto(MergeInto([], a), u), m, s);
    if StrKey(s) !in KeysOf(a) {
      GetIffKey(a, StrKey(s));
    }
  }

  // ---------------------------------------------------------------------------------------
  // The fields of a call

  /** `transform($source, $this->maps[$kind])`. */
  function CallOf(hash: Value -> string, source: Value, kind: string): (r: Outcome<seq<(Key, Value)>>)
    requires kind in CALL_TYPES
    ensures r.Ok? ==> DistinctKeys(r.value)
  {
    TransformSpec(hash, source, CallTypeMap(kind).value)
  }

  /** A call holds under each key of its tree the field of that key's branch. */
  lemma CallField(hash: Value -> string, source: Value, kind: string, s: string, b: Branch)
    requires kind in CALL_TYPES && CallOf(hash, source, kind).Ok?
    requires Get(CallTypeMap(kind).value, StrKey(s)) == Some(b)
    ensures Get(CallOf(hash, source, kind).value, StrKey(s)) == Field(hash, source, b)
  {
    CallTypeMapShape(kind);
    CallEntry(hash, source, CallTypeMap(kind).value, StrKey(s), b);
  }

  /** Every call carries its kind under `type`. */
  lemma CallType(hash: Value -> string, source: Value, kind: string)
    requires kind in CALL_TYPES && CallOf(hash, source, kind).Ok?
    ensures Get(CallOf(hash, source, kind).value, StrKey("type")) == Some(Str(kind))
  {
    TypeEntry(kind);
    CallField(hash, source, kind, "type", Path(kind + "|static"));
    TypeField(hash, source, kind);
  }

  /** Identify and group calls have no `context`. */
  lemma NoContext(hash: Value -> string, source: Value, kind: string)
    requires (kind == "identify" || kind == "group") && CallOf(hash, source, kind).Ok?
    ensures Get(CallOf(hash, source, kind).value, StrKey("context")) == None
  {
    ContextEntry(kind);
    CallField(hash, source, kind, "context", Omit);
  }

  /** Group calls have no message id; the others hash the value under the empty key. */
  lemma MessageId(hash: Value -> string, source: Value, kind: string)
    requires kind in CALL_TYPES && CallOf(hash, source, kind).Ok?
    ensures Get(CallOf(hash, source, kind).value, StrKey("messageId"))
         == if kind != "group" && Index(source, "").Some? then Some(Str(hash(Index(source, "").value))) else None
  {
    MessageIdEntry(kind);
    CallField(hash, source, kind, "messageId", if kind == "group" then Omit else Path("|" + Callbacks.HASH_EVENT));
    HashedField(hash, source);
  }

  /** On an event without an entry under the empty key, which is every event the analytics
      pipeline writes, no call has a message id and the hash is never computed. */
  lemma MessageIdOmitted(hash: Value -> string, source: Value, kind: string)
    requires kind in CALL_TYPES && CallOf(hash, source, kind).Ok?
    requires source.Arr? && StrKey("") !in KeysOf(source.entries)
    ensures Get(CallOf(hash, source, kind).value, StrKey("messageId")) == None
  {
    MessageId(hash, source, kind);
    GetIffKey(source.entries, StrKey(""));
    assert NormalizeKey("") == StrKey("");
  }

  /** `timestamp` is the event's `event_timestamp`, in milliseconds, as an ISO 8601 date. */
  lemma Timestamp(hash: Value -> string, source: Value, kind: string, t: int)
    requires kind in CALL_TYPES && CallOf(hash, source, kind).Ok?
    ensures Index(source, "event_timestamp") == Some(Int(t)) ==>
              Get(CallOf(hash, source, kind).value, StrKey("timestamp")) == Some(Str(Callbacks.MillisecondsToIso8601(t)))
    ensures Index(source, "event_timestamp").None? ==>
              Get(CallOf(hash, source, kind).value, StrKey("timestamp")) == None
  {
    TimestampEntry(kind);
    CallField(hash, source, kind, "timestamp", Path("event_timestamp" + "|" + Callbacks.MILLISECONDS_TO_ISO8601));
    EventTimestampField(hash, source, t);
  }

  /** `receivedAt` is the event's `arrival_timestamp`, converted the same way. */
  lemma ReceivedAt(hash: Value -> string, source: Value, kind: string, t: int)
    requires kind in CALL_TYPES && CallOf(hash, source, kind).Ok?
    ensures Index(source, "arrival_timestamp") == Some(Int(t)) ==>
              Get(CallOf(hash, source, kind).value, StrKey("receivedAt")) == Some(Str(Callbacks.MillisecondsToIso8601(t)))
    ensures Index(source, "arrival_timestamp").None? ==>
              Get(CallOf(hash, source, kind).value, StrKey("receivedAt")) == None
  {
    ReceivedAtEntry(kind);
    CallField(hash, source, kind, "receivedAt", Path("arrival_timestamp" + "|" + Callbacks.MILLISECONDS_TO_ISO8601));
    ArrivalTimestampField(hash, source, t);
  }

  /** A track call's `event` is the event type, when the event has one. */
  lemma TrackEvent(hash: Value -> string, source: Value, kind: string)
    requires kind == "track" && CallOf(hash, source, kind).Ok?
    ensures Get(CallOf(hash, source, kind).value, StrKey("event")) == Kept(Index(source, "event_type"))
  {
    EventEntry(kind);
    CallField(hash, source, kind, "event", Path("event_type"));
    EventTypeField(hash, source);
  }

  /** A track call's `properties` merge the event's metrics over its attributes; they are
      left out when both are missing or empty. */
  lemma TrackPropertiesMerged(hash: Value -> string, source: Value, kind: string)
    requires kind == "track" && CallOf(hash, source, kind).Ok?
    requires Index(source, "attributes").None? || Index(source, "attributes").value.Arr?
    requires Index(source, "metrics").None? || Index(source, "metrics").value.Arr?
    ensures var a := Entries(Index(source, "attributes"));
            var m := Entries(Index(source, "metrics"));
            Get(CallOf(hash, source, kind).value, StrKey("properties"))
              == if a == [] && m == [] then None else Some(Arr(SplicedPair(a, m)))
  {
    PropertiesEntry(kind);
    CallField(hash, source, kind, "properties", Nested(TrackProperties()));
    TrackPropertiesField(hash, source);
  }

  /** A page call's `name` is the page title. */
  lemma PageName(hash: Value -> string, source: Value, kind: string)
    requires kind == "page" && CallOf(hash, source, kind).Ok?
    ensures Get(CallOf(hash, source, kind).value, StrKey("name")) == Kept(Walk(source, ["attributes", "title"]))
  {
    NameEntry(kind);
    CallField(hash, source, kind, "name", Path("attributes.title"));
    TitleField(hash, source);
  }

  /** Whenever a page or track call keeps its context, `context.app` holds the version read
      from `endpoint.Demographic.AppVersion`, or nothing. */
  lemma ContextAppVersion(hash: Value -> string, source: Value, kind: string)
    requires (kind == "page" || kind == "track") && CallOf(hash, source, kind).Ok?
    ensures var c := Get(CallOf(hash, source, kind).value, StrKey("context"));
            c.Some? ==> (c.value.Arr? &&
              Get(c.value.entries, StrKey("app")) == AppOf(Walk(source, ["endpoint", "Demographic", "AppVersion"])))
  {
    ContextKept(kind);
    CallField(hash, source, kind, "context", Nested(ContextMap("endpoint.Demographic.AppVersion", Traits())));
    AppVersionText();
    AppVersionSegments();
    ContextAppOf(hash, source, "endpoint.Demographic.AppVersion", Traits());
  }

  /** An identify call's `traits` are the traits, left out when there are none. */
  lemma IdentifyTraits(hash: Value -> string, source: Value, kind: string)
    requires kind == "identify" && CallOf(hash, source, kind).Ok?
    requires SpliceableAt(source, ["endpoint", "Attributes"])
    requires SpliceableAt(source, ["endpoint", "User", "UserAttributes"])
    requires SpliceableAt(source, ["endpoint", "Metrics"])
    ensures Get(CallOf(hash, source, kind).value, StrKey("traits"))
         == if TraitsOf(source) == [] then None else Some(Arr(TraitsOf(source)))
  {
    TraitsEntry(kind);
    CallField(hash, source, kind, "traits", Nested(Traits()));
    TraitsValue(hash, source);
    NestedField(hash, source, Traits());
  }
}
