/**
 * The calls a Segment transformer makes of one analytics event: an identify call, one group
 * call per registered group map whose group id is set, and the main call, a page call for a
 * page view and a track call for anything else. Both transformers build their calls the same
 * way; they differ only in their per-call trees.
 */
module SegmentCalls {
  import opened Php
  import opened Mapping
  import opened SegmentMaps
  import SegmentExport
  import SegmentLegacy

  /** The transformer of the data export (`Segment_Transformer`) and the older one
      (`SegmentTransformer`). */
  datatype Variant = Export | Legacy

  /** A Segment call: the array `transform` builds. */
  type Call = seq<(Key, Value)>

  /** The per-call tree of a variant. */
  function CallTypeMap(variant: Variant, kind: string): (r: Option<Spec>)
    ensures r.Some? <==> kind in CALL_TYPES
  {
    match variant
    case Export => SegmentExport.CallTypeMap(kind)
    case Legacy => SegmentLegacy.CallTypeMap(kind)
  }

  /** The tree of a group call: the registered map merged over the group tree. */
  function GroupMap(variant: Variant, registered: Spec): Spec {
    ArrayMerge(CallTypeMap(variant, "group").value, registered)
  }

  /** The kind of the main call of an event: a page call for a page view, a track call for
      anything else, a missing `event_type` included. */
  function MainKind(event: seq<(Key, Value)>): (r: string)
    ensures r == "page" || r == "track"
  {
    if Get(event, StrKey("event_type")) == Some(Str("pageView")) then "page" else "track"
  }

  /** `empty($call['groupId'])`: the group id is missing or falsy. */
  predicate NoGroupId(call: Call) {
    var g := Get(call, StrKey("groupId"));
    g.None? || IsEmpty(g.value)
  }

  /** Group calls in order, or the first error met while building them. */
  function Chain(a: Outcome<seq<Call>>, b: Outcome<seq<Call>>): Outcome<seq<Call>> {
    match a
    case Fatal(_) => a
    case Ok(x) =>
      match b
      case Fatal(_) => b
      case Ok(y) => Ok(x + y)
  }

  /** One more group call, or none, after the ones before it; the first error wins. */
  function AddGroup(calls: Outcome<seq<Call>>, next: Outcome<Option<Call>>): Outcome<seq<Call>> {
    match calls
    case Fatal(_) => calls
    case Ok(cs) =>
      match next
      case Fatal(f) => Fatal(f)
      case Ok(None) => calls
      case Ok(Some(c)) => Ok(cs + [c])
  }

  /** Adding a group call after a chain adds it to the chain's second part. */
  lemma ChainAddGroup(a: Outcome<seq<Call>>, b: Outcome<seq<Call>>, next: Outcome<Option<Call>>)
    ensures Chain(a, AddGroup(b, next)) == AddGroup(Chain(a, b), next)
  {
    if a.Ok? && b.Ok? && next.Ok? && next.value.Some? {
      assert a.value + (b.value + [next.value.value]) == (a.value + b.value) + [next.value.value];
    }
  }

  /** One more result after a chain that succeeds: the calls before it, then its call if it
      made one. */
  lemma ChainOne(before: Outcome<seq<Call>>, next: Outcome<Option<Call>>)
    requires Chain(before, Collect([next])).Ok?
    ensures before.Ok? && next.Ok?
    ensures Chain(before, Collect([next])).value
         == before.value + if next.value.Some? then [next.value.value] else []
  {
    assert [next][..0] == [];
    if next.Ok? && next.value.None? {
      assert before.value + [] == before.value;
    }
  }

  /** `array_values(array_filter($groups))` over the results of the closure, built in order:
      the calls that were made, renumbered, or the first error. */
  function Collect(results: seq<Outcome<Option<Call>>>): (r: Outcome<seq<Call>>)
    ensures r.Ok? ==> |r.value| <= |results|
    ensures r.Ok? ==> forall c :: c in r.value ==> Ok(Some(c)) in results
  {
    if results == [] then Ok([])
    else AddGroup(Collect(results[..|results| - 1]), results[|results| - 1])
  }

  /** Collecting the results of two lists collects each and chains them. */
  lemma {:induction false} CollectAppend(a: seq<Outcome<Option<Call>>>, b: seq<Outcome<Option<Call>>>)
    ensures Collect(a + b) == Chain(Collect(a), Collect(b))
    decreases |b|
  {
    if b == [] {
      assert a + b == a;
      if Collect(a).Ok? {
        assert Collect(a).value + [] == Collect(a).value;
      }
    } else {
      var init := b[..|b| - 1];
      assert (a + b)[..|a + b| - 1] == a + init;
      assert (a + b)[|a + b| - 1] == b[|b| - 1];
      CollectAppend(a, init);
      ChainAddGroup(Collect(a), Collect(init), b[|b| - 1]);
    }
  }

  /** Collecting succeeds exactly when every result does; otherwise it fails with the first
      error. */
  lemma {:induction false} CollectFatal(results: seq<Outcome<Option<Call>>>)
    ensures Collect(results).Ok? <==> forall i :: 0 <= i < |results| ==> results[i].Ok?
    ensures Collect(results).Fatal? ==>
              exists i :: 0 <= i < |results| && results[i] == Fatal(Collect(results).fault) &&
                          forall j :: 0 <= j < i ==> results[j].Ok?
  {
    if results != [] {
      var init := results[..|results| - 1];
      CollectFatal(init);
      if Collect(init).Fatal? {
        var i :| 0 <= i < |init| && init[i] == Fatal(Collect(init).fault) && forall j :: 0 <= j < i ==> init[j].Ok?;
        assert results[i] == init[i];
      }
    }
  }

  /** When every result is a call, all of them are collected, in order. */
  lemma {:induction false} CollectAll(results: seq<Outcome<Option<Call>>>)
    requires forall i :: 0 <= i < |results| ==> results[i].Ok? && results[i].value.Some?
    ensures Collect(results).Ok? && |Collect(results).value| == |results|
    ensures forall i :: 0 <= i < |results| ==> Collect(results).value[i] == results[i].value.value
  {
    if results != [] {
      var init := results[..|results| - 1];
      assert forall i :: 0 <= i < |init| ==> init[i] == results[i];
      CollectAll(init);
      assert Collect(results) == AddGroup(Collect(init), results[|results| - 1]);
    }
  }

  /** `$this->maps`: the identify, page and track trees, and whatever the groups filter
      returned, an array whose values are the registered group maps. */
  datatype Maps = Maps(identify: Spec, page: Spec, track: Spec, groups: Spec)

  class SegmentTransformer {
    const variant: Variant
    /** `hash_event`, which is not part of this model. */
    const hash: Value -> string
    var maps: Maps

    /** The call trees are built once; `groups` is what the groups filter returns. */
    constructor(variant: Variant, hash: Value -> string, groups: Spec)
      ensures this.variant == variant && this.hash == hash
      ensures maps == Maps(CallTypeMap(variant, "identify").value, CallTypeMap(variant, "page").value,
                           CallTypeMap(variant, "track").value, groups)
      ensures Built()
    {
      this.variant := variant;
      this.hash := hash;
      maps := Maps(CallTypeMap(variant, "identify").value, CallTypeMap(variant, "page").value,
                   CallTypeMap(variant, "track").value, groups);
    }

    /** The identify, page and track trees are the ones the constructor builds; only the
        group maps may have been replaced since. */
    predicate Built()
      reads this
    {
      && maps.identify == CallTypeMap(variant, "identify").value
      && maps.page == CallTypeMap(variant, "page").value
      && maps.track == CallTypeMap(variant, "track").value
    }

    /** `get_main_event_map($event)`: the page tree for a page view, the track tree otherwise. */
    function MainEventMap(event: seq<(Key, Value)>): (r: Spec)
      reads this
      ensures Built() ==> Some(r) == CallTypeMap(variant, MainKind(event))
    {
      if MainKind(event) == "page" then maps.page else maps.track
    }

    /** `identify($source)`; the parameter is typed `array`. */
    function Identify(source: Value): (r: Outcome<Call>)
      reads this
      ensures !source.Arr? ==> r == Fatal(TypeError)
      ensures source.Arr? && Built() ==> r == TransformSpec(hash, source, CallTypeMap(variant, "identify").value)
    {
      if source.Arr? then TransformSpec(hash, source, maps.identify) else Fatal(TypeError)
    }

    /** `track($source)`: the main call, built from the tree of the event's main kind. */
    function Track(source: Value): (r: Outcome<Call>)
      reads this
      ensures !source.Arr? ==> r == Fatal(TypeError)
      ensures source.Arr? && Built() ==> r == TransformSpec(hash, source, CallTypeMap(variant, MainKind(source.entries)).value)
    {
      if source.Arr? then TransformSpec(hash, source, MainEventMap(source.entries)) else Fatal(TypeError)
    }

    /** The closure `groups` maps over the registered group maps: `array_merge` refuses
        anything but an array, and a call without a group id is dropped. */
    function GroupCall(source: Value, registered: Branch): (r: Outcome<Option<Call>>)
      ensures r.Ok? && r.value.Some? ==> !NoGroupId(r.value.value)
    {
      match registered
      case Nested(m) =>
        (match TransformSpec(hash, source, GroupMap(variant, m))
         case Fatal(f) => Fatal(f)
         case Ok(call) => if NoGroupId(call) then Ok(None) else Ok(Some(call)))
      case _ => Fatal(TypeError)
    }

    /** What the closure gives each registered map of `gs`, in order. */
    function GroupResults(source: Value, gs: Spec): (r: seq<Outcome<Option<Call>>>)
      ensures |r| == |gs| && forall i :: 0 <= i < |gs| ==> r[i] == GroupCall(source, gs[i].1)
    {
      seq(|gs|, i requires 0 <= i < |gs| => GroupCall(source, gs[i].1))
    }

    /** The surviving group calls of the registered maps `gs`, in order and renumbered. */
    function GroupsOf(source: Value, gs: Spec): (r: Outcome<seq<Call>>)
      ensures r.Ok? ==> |r.value| <= |gs|
      ensures r.Ok? ==> forall c :: c in r.value ==> !NoGroupId(c)
    {
      Collect(GroupResults(source, gs))
    }

    /** `groups($source)`: at most one call per registered map, each with a group id. */
    function Groups(source: Value): (r: Outcome<seq<Call>>)
      reads this
      ensures !source.Arr? ==> r == Fatal(TypeError)
      ensures r.Ok? ==> |r.value| <= |maps.groups| && forall c :: c in r.value ==> !NoGroupId(c)
    {
      if source.Arr? then GroupsOf(source, maps.groups) else Fatal(TypeError)
    }

    /** `transform($source)` without a map; with a map it is the interpreter's `transform`. */
    function Transform(source: Value): (r: Outcome<seq<Call>>)
      reads this
      ensures r.Ok? <==> Identify(source).Ok? && Groups(source).Ok? && Track(source).Ok?
    {
      match Identify(source)
      case Fatal(f) => Fatal(f)
      case Ok(i) =>
        match Groups(source)
        case Fatal(f) => Fatal(f)
        case Ok(gs) =>
          match Track(source)
          case Fatal(f) => Fatal(f)
          case Ok(t) => Ok([i] + gs + [t])
    }
  }

  // ---------------------------------------------------------------------------------------
  // The trees of the two variants

  /** Every call carries its kind under `type`, in both variants. */
  lemma TypeOf(variant: Variant, hash: Value -> string, source: Value, kind: string)
    requires kind in CALL_TYPES && TransformSpec(hash, source, CallTypeMap(variant, kind).value).Ok?
    ensures Get(TransformSpec(hash, source, CallTypeMap(variant, kind).value).value, StrKey("type"))
         == Some(Str(kind))
  {
    match variant
    case Export => SegmentExport.CallType(hash, source, kind);
    case Legacy => SegmentLegacy.CallType(hash, source, kind);
  }

  /** The identify call has no `context`, in both variants. */
  lemma IdentifyNoContext(variant: Variant, hash: Value -> string, source: Value)
    requires TransformSpec(hash, source, CallTypeMap(variant, "identify").value).Ok?
    ensures Get(TransformSpec(hash, source, CallTypeMap(variant, "identify").value).value, StrKey("context")) == None
  {
    match variant
    case Export => SegmentExport.NoContext(hash, source, "identify");
    case Legacy => SegmentLegacy.NoContext(hash, source, "identify");
  }

  /** The group tree: distinct word keys, `context` and `messageId` nulled, no `groupId`. */
  lemma GroupBase(variant: Variant)
    ensures var g := CallTypeMap(variant, "group").value;
            && DistinctKeys(g) && WordKeyed(g)
            && Get(g, StrKey("context")) == Some(Omit)
            && Get(g, StrKey("messageId")) == Some(Omit)
            && Get(g, StrKey("groupId")) == None
  {
    match variant
    case Export =>
      SegmentExport.CallTypeMapShape("group");
      SegmentExport.ContextEntry("group");
      SegmentExport.MessageIdEntry("group");
      SegmentExport.GroupIdEntry("group");
    case Legacy =>
      SegmentLegacy.CallTypeMapShape("group");
      SegmentLegacy.ContextEntry("group");
      SegmentLegacy.MessageIdEntry("group");
      SegmentLegacy.GroupIdEntry("group");
  }

  // ---------------------------------------------------------------------------------------
  // Group calls

  /** A group call holds under each key the registered map names that key's field, and
      under every other key the field of the group tree. */
  lemma GroupField(variant: Variant, hash: Value -> string, source: Value, m: Spec, s: string)
    requires DistinctKeys(m) && WordKeyed(m)
    requires TransformSpec(hash, source, GroupMap(variant, m)).Ok?
    ensures Get(TransformSpec(hash, source, GroupMap(variant, m)).value, StrKey(s))
         == if StrKey(s) in KeysOf(m) then FieldOf(hash, source, m, StrKey(s))
            else FieldOf(hash, source, CallTypeMap(variant, "group").value, StrKey(s))
  {
    var g, merged := CallTypeMap(variant, "group").value, GroupMap(variant, m);
    assert DistinctKeys(merged) && WordKeyed(merged) by {
      GroupBase(variant);
      ArrayMergeWellFormed(g, m);
      ArrayMergeWordKeyed(g, m);
    }
    assert Get(merged, StrKey(s)) == if StrKey(s) in KeysOf(m) then Get(m, StrKey(s)) else Get(g, StrKey(s)) by {
      GroupBase(variant);
      ArrayMergeGetString(g, m, s);
    }
    WordKeyedFields(hash, source, merged, StrKey(s));
    if StrKey(s) in KeysOf(m) {
      FieldOfSameEntry(hash, source, merged, m, StrKey(s));
    } else {
      FieldOfSameEntry(hash, source, merged, g, StrKey(s));
    }
  }

  /** A group call that is made is the transform of the merged tree, kept when its group id
      is set. */
  lemma GroupCallOf(t: SegmentTransformer, source: Value, m: Spec)
    requires t.GroupCall(source, Nested(m)).Ok?
    ensures TransformSpec(t.hash, source, GroupMap(t.variant, m)).Ok?
    ensures var call := TransformSpec(t.hash, source, GroupMap(t.variant, m)).value;
            t.GroupCall(source, Nested(m)).value == if NoGroupId(call) then None else Some(call)
  {
  }

  /** A registered map of distinct word keys gives a group call exactly when the field it
      gives `groupId` is set and not falsy. The call then holds every field the registered
      map names, and has no `context` or `messageId` unless the registered map supplies
      them. */
  lemma GroupCallFields(t: SegmentTransformer, source: Value, m: Spec)
    requires DistinctKeys(m) && WordKeyed(m) && t.GroupCall(source, Nested(m)).Ok?
    ensures var r := t.GroupCall(source, Nested(m)).value;
            var id := FieldOf(t.hash, source, m, StrKey("groupId"));
            && (r.Some? <==> id.Some? && !IsEmpty(id.value))
            && (r.Some? ==> forall s :: StrKey(s) in KeysOf(m) ==>
                  Get(r.value, StrKey(s)) == FieldOf(t.hash, source, m, StrKey(s)))
            && (r.Some? && StrKey("context") !in KeysOf(m) ==> Get(r.value, StrKey("context")) == None)
            && (r.Some? && StrKey("messageId") !in KeysOf(m) ==> Get(r.value, StrKey("messageId")) == None)
  {
    var call := TransformSpec(t.hash, source, GroupMap(t.variant, m)).value;
    var id := FieldOf(t.hash, source, m, StrKey("groupId"));
    GroupCallOf(t, source, m);
    assert Get(call, StrKey("groupId")) == id by {
      GroupBase(t.variant);
      GroupField(t.variant, t.hash, source, m, "groupId");
      GroupIffKey(m, StrKey("groupId"));
    }
    assert StrKey("context") !in KeysOf(m) ==> Get(call, StrKey("context")) == None by {
      GroupBase(t.variant);
      GroupField(t.variant, t.hash, source, m, "context");
    }
    assert StrKey("messageId") !in KeysOf(m) ==> Get(call, StrKey("messageId")) == None by {
      GroupBase(t.variant);
      GroupField(t.variant, t.hash, source, m, "messageId");
    }
    forall s | StrKey(s) in KeysOf(m)
      ensures Get(call, StrKey(s)) == FieldOf(t.hash, source, m, StrKey(s))
    {
      GroupField(t.variant, t.hash, source, m, s);
    }
  }

  /** A key a tree does not name has no field. */
  lemma GroupIffKey(m: Spec, k: Key)
    ensures k !in KeysOf(m) ==> Get(m, k) == None
  {
    GetIffKey(m, k);
  }

  /** A registered group id path that misses on the event drops the group call: the events
      without a device type get no group call for a map keyed on the device type. */
  lemma GroupDropped(t: SegmentTransformer, source: Value, m: Spec, path: string)
    requires DistinctKeys(m) && WordKeyed(m) && t.GroupCall(source, Nested(m)).Ok?
    requires Get(m, StrKey("groupId")) == Some(Path(path))
    requires '|' !in path && path != "" && path != "0"
    requires Walk(source, Explode(path, '.')).None?
    ensures t.GroupCall(source, Nested(m)) == Ok(None)
  {
    GroupCallFields(t, source, m);
    PathField(t.hash, source, path);
  }

  /** The group calls of two lists of registered maps are those of the first list followed
      by those of the second: registration order is kept, and the first error wins. */
  lemma GroupsAppend(t: SegmentTransformer, source: Value, gs: Spec, hs: Spec)
    ensures t.GroupsOf(source, gs + hs) == Chain(t.GroupsOf(source, gs), t.GroupsOf(source, hs))
  {
    var all, a, b := t.GroupResults(source, gs + hs), t.GroupResults(source, gs), t.GroupResults(source, hs);
    assert all == a + b by {
      forall i | 0 <= i < |all|
        ensures all[i] == (a + b)[i]
      {
        if i < |gs| {
          assert (gs + hs)[i] == gs[i];
        } else {
          assert (gs + hs)[i] == hs[i - |gs|];
        }
      }
    }
    CollectAppend(a, b);
  }

  /** The group calls of a single registered value are its call, if it makes one. */
  lemma GroupsOfOne(t: SegmentTransformer, source: Value, e: (Key, Branch))
    ensures t.GroupsOf(source, [e]) == Collect([t.GroupCall(source, e.1)])
  {
    assert t.GroupResults(source, [e]) == [t.GroupCall(source, e.1)];
  }

  /** The group calls are built when every registered value gives a call or none, and a
      registered value that is not an array makes them fail. */
  lemma GroupsFail(t: SegmentTransformer, source: Value, gs: Spec)
    ensures t.GroupsOf(source, gs).Ok? <==> forall i :: 0 <= i < |gs| ==> t.GroupCall(source, gs[i].1).Ok?
    ensures (exists i :: 0 <= i < |gs| && !gs[i].1.Nested?) ==> t.GroupsOf(source, gs).Fatal?
  {
    CollectFatal(t.GroupResults(source, gs));
  }

  // ---------------------------------------------------------------------------------------
  // The calls of an event

  /** The main call is a page call exactly for a page view, and a track call otherwise. */
  lemma MainCallType(t: SegmentTransformer, source: Value)
    requires t.Built() && source.Arr? && t.Track(source).Ok?
    ensures Get(t.Track(source).value, StrKey("type"))
         == Some(Str(if Get(source.entries, StrKey("event_type")) == Some(Str("pageView")) then "page" else "track"))
  {
    TypeOf(t.variant, t.hash, source, MainKind(source.entries));
  }

  /** Without a map, an event becomes its identify call, which has no `context`, then its
      group calls, each with a group id, then its main call, of kind page exactly for a page
      view. */
  lemma CallOrder(t: SegmentTransformer, source: Value)
    requires t.Built() && source.Arr? && t.Transform(source).Ok?
    ensures var cs := t.Transform(source).value;
            && |cs| == |t.Groups(source).value| + 2
            && Get(cs[0], StrKey("type")) == Some(Str("identify"))
            && Get(cs[0], StrKey("context")) == None
            && cs[1..|cs| - 1] == t.Groups(source).value
            && (forall i :: 1 <= i < |cs| - 1 ==> !NoGroupId(cs[i]))
            && Get(cs[|cs| - 1], StrKey("type")) == Some(Str(MainKind(source.entries)))
  {
    var cs := t.Transform(source).value;
    var gs := t.Groups(source).value;
    assert cs == [t.Identify(source).value] + gs + [t.Track(source).value];
    TypeOf(t.variant, t.hash, source, "identify");
    IdentifyNoContext(t.variant, t.hash, source);
    TypeOf(t.variant, t.hash, source, MainKind(source.entries));
    assert cs[1..|cs| - 1] == gs;
    forall i | 1 <= i < |cs| - 1
      ensures !NoGroupId(cs[i])
    {
      assert cs[i] == gs[i - 1];
    }
  }
}
