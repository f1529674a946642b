/**
 * The glue of the export (`inc/export/namespace.php`): decoded event lines become calls,
 * the encoded calls are packed into request bodies under Segment's size limit, responses
 * are read back, and group maps are registered.
 */
module Pipeline {
  import opened Php
  import opened Mapping
  import opened SegmentMaps
  import opened SegmentCalls

  // ---------------------------------------------------------------------------------------
  // format

  /** The events `format` keeps: the decoded lines that are not falsy, in order. A blank or
      undecodable line decodes to null and goes. */
  function Truthy(events: seq<Value>): (r: seq<Value>)
    ensures |r| <= |events|
    ensures forall v :: v in r <==> v in events && !IsEmpty(v)
  {
    if events == [] then []
    else
      var last := events[|events| - 1];
      Truthy(events[..|events| - 1]) + (if IsEmpty(last) then [] else [last])
  }

  /** Filtering a concatenation filters each part: the kept events keep their order. */
  lemma {:induction false} TruthyAppend(a: seq<Value>, b: seq<Value>)
    ensures Truthy(a + b) == Truthy(a) + Truthy(b)
    decreases |b|
  {
    if b == [] {
      assert a + b == a;
    } else {
      var init := b[..|b| - 1];
      assert (a + b)[..|a + b| - 1] == a + init;
      assert (a + b)[|a + b| - 1] == b[|b| - 1];
      TruthyAppend(a, init);
    }
  }

  /** The results of a list of computations run in order: all their values, or the first
      error. */
  function Sequence<T>(results: seq<Outcome<T>>): (r: Outcome<seq<T>>)
    ensures r.Ok? <==> forall i :: 0 <= i < |results| ==> results[i].Ok?
    ensures r.Ok? ==> |r.value| == |results| && forall i :: 0 <= i < |results| ==> r.value[i] == results[i].value
  {
    if results == [] then Ok([])
    else
      match Sequence(results[..|results| - 1])
      case Fatal(f) => Fatal(f)
      case Ok(done) =>
        match results[|results| - 1]
        case Fatal(f) => Fatal(f)
        case Ok(v) => Ok(done + [v])
  }

  /** The transformer mapped over the kept events, stopping at the first error. */
  function TransformAll(t: SegmentTransformer, events: seq<Value>): seq<Outcome<seq<Call>>>
    reads t
  {
    seq(|events|, i requires 0 <= i < |events| reads t => t.Transform(events[i]))
  }

  /** `format($data)`, from the decoded lines on; the transformer it preloads is `t`, a
      `Segment_Transformer`. It succeeds exactly when every kept event transforms, and then
      gives one list of calls per kept event. */
  function Format(t: SegmentTransformer, events: seq<Value>): (r: Outcome<seq<seq<Call>>>)
    requires t.variant == Export
    reads t
    ensures r.Ok? <==> forall v :: v in Truthy(events) ==> t.Transform(v).Ok?
    ensures r.Ok? ==> |r.value| == |Truthy(events)| <= |events|
  {
    var kept := Truthy(events);
    var results := TransformAll(t, kept);
    assert |results| == |kept| && forall i :: 0 <= i < |kept| ==> results[i] == t.Transform(kept[i]);
    Sequence(results)
  }

  /** Each kept event of a formatted batch is an array and becomes its identify call, its
      group calls and its main call, of kind page exactly for a page view. */
  lemma FormatCalls(t: SegmentTransformer, events: seq<Value>, i: int)
    requires t.variant == Export && t.Built() && Format(t, events).Ok? && 0 <= i < |Truthy(events)|
    ensures var e := Truthy(events)[i];
            var cs := Format(t, events).value[i];
            && e.Arr? && cs == t.Transform(e).value
            && Get(cs[0], StrKey("type")) == Some(Str("identify"))
            && Get(cs[|cs| - 1], StrKey("type")) == Some(Str(MainKind(e.entries)))
  {
    var e := Truthy(events)[i];
    assert t.Transform(e).Ok?;
    assert t.Identify(e).Ok?;
    CallOrder(t, e);
  }

  /** A kept event that is not an array, such as a bare number on its own line, makes
      `format` fail. */
  lemma FormatRejectsScalar(t: SegmentTransformer, events: seq<Value>, v: Value)
    requires t.variant == Export && v in events && !IsEmpty(v) && !v.Arr?
    ensures Format(t, events).Fatal?
  {
    var i :| 0 <= i < |Truthy(events)| && Truthy(events)[i] == v;
  }

  /** Falsy lines, wherever they are, change nothing. */
  lemma FormatSkipsFalsy(t: SegmentTransformer, a: seq<Value>, v: Value, b: seq<Value>)
    requires t.variant == Export && IsEmpty(v)
    ensures Format(t, a + [v] + b) == Format(t, a + b)
  {
    TruthyAppend(a + [v], b);
    TruthyAppend(a, [v]);
    TruthyAppend(a, b);
    assert Truthy([v]) == Truthy([]) + [];
    assert Truthy(a) + Truthy([v]) == Truthy(a);
  }

  // ---------------------------------------------------------------------------------------
  // prepare

  /** The request body template, `{"batch":[%s]}`. */
  const TEMPLATE: string := "{\"batch\":[%s]}"

  /** The largest batch content: 500 KiB less the template's length. */
  const LIMIT: int := 500 * 1024 - |TEMPLATE|

  lemma LimitValue()
    ensures LIMIT == 511986
  {
  }

  /** `sprintf($template, $batch)`. */
  function Wrap(content: string): (r: string)
    ensures |r| == |content| + |TEMPLATE| - 2
  {
    "{\"batch\":[" + content + "]}"
  }

  /** `empty($event_calls)`. */
  predicate EmptyChunk(chunk: string) {
    IsEmpty(Str(chunk))
  }

  /** An event's calls, each encoded as JSON, glued with commas. */
  function Chunk(event: seq<string>): string {
    Join(event, ',')
  }

  /** The length of the last batch, 0 when there is none. */
  function CurrentSize(batches: seq<string>): nat {
    if batches == [] then 0 else |batches[|batches| - 1]|
  }

  /** The reducer of `prepare`: an empty chunk is skipped; a chunk that would push the last
      batch over the limit, or finds no batch, opens a new one; any other chunk is appended
      to the last batch after a comma. */
  function AddChunk(batches: seq<string>, chunk: string): (r: seq<string>)
    ensures EmptyChunk(chunk) ==> r == batches
    ensures |batches| <= |r| <= |batches| + 1
    ensures |r| == |batches| + 1 ==> r == batches + [chunk]
    ensures !EmptyChunk(chunk) && |r| == |batches| ==> r != [] && |r[|r| - 1]| <= LIMIT
  {
    if EmptyChunk(chunk) then batches
    else if CurrentSize(batches) == 0 || CurrentSize(batches) + |chunk| + 1 > LIMIT then batches + [chunk]
    else batches[..|batches| - 1] + [batches[|batches| - 1] + "," + chunk]
  }

  /** `array_reduce` over the events: the batch contents before wrapping. */
  function Pack(data: seq<seq<string>>): (r: seq<string>)
    ensures |r| <= |data|
  {
    if data == [] then [] else AddChunk(Pack(data[..|data| - 1]), Chunk(data[|data| - 1]))
  }

  /** The chunks that are not empty, in order. */
  function Chunks(data: seq<seq<string>>): (r: seq<string>)
    ensures |r| <= |data|
    ensures forall i :: 0 <= i < |r| ==> !EmptyChunk(r[i])
  {
    if data == [] then []
    else
      var c := Chunk(data[|data| - 1]);
      Chunks(data[..|data| - 1]) + (if EmptyChunk(c) then [] else [c])
  }

  /** The chunks of each batch, grouped the way `prepare` groups them. */
  function Groups(data: seq<seq<string>>): seq<seq<string>> {
    if data == [] then [] else AddToGroup(Groups(data[..|data| - 1]), Chunk(data[|data| - 1]))
  }

  /** The reducer of `prepare`, on the chunks of each batch rather than their text. */
  function AddToGroup(groups: seq<seq<string>>, chunk: string): seq<seq<string>> {
    if EmptyChunk(chunk) then groups
    else
      var size := if groups == [] then 0 else |Join(groups[|groups| - 1], ',')|;
      if size == 0 || size + |chunk| + 1 > LIMIT then groups + [[chunk]]
      else groups[..|groups| - 1] + [groups[|groups| - 1] + [chunk]]
  }

  /** The chunks of the groups, one after the other. */
  function Flatten(groups: seq<seq<string>>): seq<string> {
    if groups == [] then [] else Flatten(groups[..|groups| - 1]) + groups[|groups| - 1]
  }

  /** Gluing one more piece onto a non-empty list puts a comma before it. */
  lemma {:induction false} JoinSnoc(parts: seq<string>, x: string, d: char)
    requires parts != []
    ensures Join(parts + [x], d) == Join(parts, d) + [d] + x
    decreases |parts|
  {
    if |parts| == 1 {
      assert (parts + [x])[1..] == [x];
    } else {
      assert (parts + [x])[1..] == parts[1..] + [x];
      JoinSnoc(parts[1..], x, d);
    }
  }

  /** Extending the last piece extends the glued text. */
  lemma JoinExtendLast(parts: seq<string>, x: string, d: char)
    requires parts != []
    ensures Join(parts[..|parts| - 1] + [parts[|parts| - 1] + [d] + x], d) == Join(parts, d) + [d] + x
  {
    var init := parts[..|parts| - 1];
    var last := parts[|parts| - 1];
    if init == [] {
      assert parts == [last];
    } else {
      JoinSnoc(init, last + [d] + x, d);
      JoinSnoc(init, last, d);
      assert init + [last] == parts;
    }
  }

  /** No batch is empty, so `! $current_batch_size` holds only while there is no batch. */
  lemma {:induction false} PackNonEmpty(data: seq<seq<string>>)
    ensures forall i :: 0 <= i < |Pack(data)| ==> |Pack(data)[i]| > 0
    ensures Pack(data) == [] <==> Chunks(data) == []
  {
    if data != [] {
      PackNonEmpty(data[..|data| - 1]);
    }
  }

  /** Each batch is the chunks of its group glued with commas. */
  lemma {:induction false} PackGroups(data: seq<seq<string>>)
    ensures |Pack(data)| == |Groups(data)|
    ensures forall i :: 0 <= i < |Groups(data)| ==> Pack(data)[i] == Join(Groups(data)[i], ',')
  {
    if data != [] {
      var init := data[..|data| - 1];
      var c := Chunk(data[|data| - 1]);
      PackGroups(init);
      var p := Pack(init);
      var g := Groups(init);
      if !EmptyChunk(c) && g != [] {
        var n := |g| - 1;
        assert CurrentSize(p) == |Join(g[n], ',')|;
        if !(CurrentSize(p) == 0 || CurrentSize(p) + |c| + 1 > LIMIT) {
          JoinSnoc(g[n], c, ',');
          assert Pack(data)[n] == Join(Groups(data)[n], ',');
        }
      }
    }
  }

  /** Every group holds at least one chunk, and no chunk is empty. */
  lemma {:induction false} GroupsShape(data: seq<seq<string>>)
    ensures forall i :: 0 <= i < |Groups(data)| ==> Groups(data)[i] != []
    ensures forall i, j :: 0 <= i < |Groups(data)| && 0 <= j < |Groups(data)[i]| ==> !EmptyChunk(Groups(data)[i][j])
  {
    if data != [] {
      GroupsShape(data[..|data| - 1]);
    }
  }

  /** A group of two or more chunks fits the limit once glued; only a chunk alone can
      exceed it. */
  lemma {:induction false} GroupsBound(data: seq<seq<string>>)
    ensures forall i :: 0 <= i < |Groups(data)| && |Groups(data)[i]| >= 2 ==> |Join(Groups(data)[i], ',')| <= LIMIT
  {
    if data != [] {
      var init := data[..|data| - 1];
      var c := Chunk(data[|data| - 1]);
      var g := Groups(init);
      GroupsBound(init);
      if !EmptyChunk(c) && g != [] {
        var n := |g| - 1;
        var size := |Join(g[n], ',')|;
        if !(size == 0 || size + |c| + 1 > LIMIT) {
          JoinSnoc(g[n], c, ',');
          assert Groups(data)[n] == g[n] + [c];
        }
      }
    }
  }

  /** Packing neither loses, repeats, splits nor reorders a chunk. */
  lemma {:induction false} GroupsFlatten(data: seq<seq<string>>)
    ensures Flatten(Groups(data)) == Chunks(data)
  {
    if data != [] {
      var init := data[..|data| - 1];
      var c := Chunk(data[|data| - 1]);
      var g := Groups(init);
      GroupsFlatten(init);
      if !EmptyChunk(c) {
        var size := if g == [] then 0 else |Join(g[|g| - 1], ',')|;
        if size == 0 || size + |c| + 1 > LIMIT {
          assert (g + [[c]])[..|g|] == g;
        } else {
          var n := |g| - 1;
          var h := g[..n] + [g[n] + [c]];
          assert h[..n] == g[..n];
          assert Flatten(g) == Flatten(g[..n]) + g[n];
        }
      }
    }
  }

  /** Gluing the batch contents with commas gives the non-empty chunks glued with commas. */
  lemma {:induction false} PackJoin(data: seq<seq<string>>)
    ensures Join(Pack(data), ',') == Join(Chunks(data), ',')
  {
    if data != [] {
      var init := data[..|data| - 1];
      var c := Chunk(data[|data| - 1]);
      var p := Pack(init);
      PackJoin(init);
      PackNonEmpty(init);
      if !EmptyChunk(c) {
        assert Chunks(data) == Chunks(init) + [c];
        if p == [] {
          assert Chunks(init) == [];
          assert Pack(data) == [c];
          assert Chunks(data) == [c];
        } else if CurrentSize(p) + |c| + 1 > LIMIT {
          assert Pack(data) == p + [c];
          JoinSnoc(p, c, ',');
          JoinSnoc(Chunks(init), c, ',');
        } else {
          assert CurrentSize(p) != 0;
          assert Pack(data) == p[..|p| - 1] + [p[|p| - 1] + "," + c];
          JoinExtendLast(p, c, ',');
          JoinSnoc(Chunks(init), c, ',');
        }
      } else {
        assert Pack(data) == p;
        assert Chunks(data) == Chunks(init);
      }
    }
  }

  /** There are no more batches than non-empty chunks, and so than events; when every event
      is empty there is none. */
  lemma {:induction false} PackCount(data: seq<seq<string>>)
    ensures |Pack(data)| <= |Chunks(data)| <= |data|
    ensures Chunks(data) == [] ==> Pack(data) == []
  {
    if data != [] {
      PackCount(data[..|data| - 1]);
    }
  }

  /** `prepare($data)`. */
  method Prepare(data: seq<seq<string>>) returns (batches: seq<string>)
    ensures |batches| == |Pack(data)|
    ensures forall i :: 0 <= i < |batches| ==> batches[i] == Wrap(Pack(data)[i])
  {
    batches := [];
    var k := 0;
    while k < |data|
      invariant 0 <= k <= |data|
      invariant batches == Pack(data[..k])
    {
      assert data[..k + 1][..k] == data[..k];
      assert Pack(data[..k + 1]) == AddChunk(batches, Chunk(data[k]));
      var currentIndex := |batches| - 1;
      var currentSize := if batches == [] then 0 else |batches[currentIndex]|;
      var eventCalls := Join(data[k], ',');
      if !IsEmpty(Str(eventCalls)) {
        if currentSize == 0 || currentSize + |eventCalls| + 1 > LIMIT {
          batches := batches + [eventCalls];
        } else {
          batches := batches[currentIndex := batches[currentIndex] + "," + eventCalls];
          assert batches == Pack(data[..k])[..currentIndex] + [Pack(data[..k])[currentIndex] + "," + eventCalls];
        }
      }
      k := k + 1;
    }
    assert data[..k] == data;
    ghost var packed := batches;
    var j := 0;
    while j < |batches|
      invariant 0 <= j <= |batches| == |packed|
      invariant forall i :: 0 <= i < j ==> batches[i] == Wrap(packed[i])
      invariant forall i :: j <= i < |batches| ==> batches[i] == packed[i]
    {
      batches := batches[j := Wrap(batches[j])];
      j := j + 1;
    }
  }

  /** A request body holding two or more events' calls is at most 500 KiB. */
  lemma WrappedSize(data: seq<seq<string>>, i: int)
    requires 0 <= i < |Groups(data)| && |Groups(data)[i]| >= 2
    ensures i < |Pack(data)| && |Wrap(Pack(data)[i])| <= 500 * 1024
  {
    PackGroups(data);
    GroupsBound(data);
  }

  // ---------------------------------------------------------------------------------------
  // log

  /** What a request of `send` came back with: an exception, or a response. */
  datatype Response = Thrown(message: string) | Reply(status: int, body: string)

  /** The outcome `log` reports: success, or failure with the warning it raises. */
  datatype Report = Delivered | Failed(warning: string)

  const PREFIX: string := "Error delivering payload to Segment, "

  /** How `log` reads one response. */
  function ReportOf(r: Response): (rep: Report)
    ensures rep.Delivered? <==> r.Reply? && r.status == 200
    ensures r.Thrown? ==> rep.warning == PREFIX + "got exception: " + r.message
    ensures r.Reply? && r.status == 400 ==> rep.warning == PREFIX + "request too large / JSON is invalid."
    ensures r.Reply? && r.status != 200 && r.status != 400 ==>
              rep.warning == PREFIX + "got [" + IntToString(r.status) + "] [" + r.body + "]."
  {
    match r
    case Thrown(m) => Failed(PREFIX + "got exception: " + m)
    case Reply(status, body) =>
      if status == 200 then Delivered
      else if status == 400 then Failed(PREFIX + "request too large / JSON is invalid.")
      else Failed(PREFIX + "got [" + IntToString(status) + "] [" + body + "].")
  }

  /** The exception branch as written: the string interpolates the property
      `$response->getMessage`, which exceptions do not have, followed by a literal `()`. */
  function ReportAsWritten(r: Response): Report {
    if r.Thrown? then Failed(PREFIX + "got exception: " + "()") else ReportOf(r)
  }

  /** As written, the warning for an exception never carries its message. */
  lemma ExceptionMessageLost(m: string)
    requires m != "()"
    ensures ReportAsWritten(Thrown(m)).warning != ReportOf(Thrown(m)).warning
    ensures ReportAsWritten(Thrown(m)) == ReportAsWritten(Thrown(""))
  {
    var head := PREFIX + "got exception: ";
    assert (head + "()")[|head|..] == "()";
    assert (head + m)[|head|..] == m;
  }

  /** A line of the log: the report of one response and the batch it was for. */
  datatype Entry = Entry(report: Report, batch: Option<string>)

  /** `log($responses, $batches)`: each response, with the batch of the same index. */
  function Log(responses: seq<Response>, batches: seq<string>): (r: seq<Entry>)
    ensures |r| == |responses|
    ensures forall i :: 0 <= i < |r| ==> r[i].report == ReportOf(responses[i])
    ensures forall i :: 0 <= i < |r| && i < |batches| ==> r[i].batch == Some(batches[i])
  {
    seq(|responses|, i requires 0 <= i < |responses| =>
      Entry(ReportOf(responses[i]), if i < |batches| then Some(batches[i]) else None))
  }

  // ---------------------------------------------------------------------------------------
  // Group maps

  /** `register_segment_group_field($field, $traits)`: the group map it registers. */
  function GroupFieldMap(field: string, traits: Spec): (r: Spec)
    ensures KeysOf(r) == [StrKey("groupId"), StrKey("traits")]
  {
    [(StrKey("groupId"), Path(field)), (StrKey("traits"), Nested(traits))]
  }

  lemma GroupFieldWords()
    ensures IsWord("groupId") && IsWord("traits")
  {
    WordKey("groupId");
    WordKey("traits");
  }

  /** The group map registered for a field holds exactly the field, under `groupId`, and the
      traits tree, under `traits`. */
  lemma GroupFieldShape(field: string, traits: Spec)
    ensures var m := GroupFieldMap(field, traits);
            && DistinctKeys(m) && WordKeyed(m)
            && KeysOf(m) == [StrKey("groupId"), StrKey("traits")]
            && Get(m, StrKey("groupId")) == Some(Path(field))
            && Get(m, StrKey("traits")) == Some(Nested(traits))
            && StrKey("context") !in KeysOf(m) && StrKey("messageId") !in KeysOf(m)
  {
    var m := GroupFieldMap(field, traits);
    GroupFieldWords();
    assert KeysOf(m) == [StrKey("groupId"), StrKey("traits")];
    GetDistinct(m, 0);
    GetDistinct(m, 1);
    assert "context"[0] != "groupId"[0] && "context"[0] != "traits"[0];
    assert "messageId"[0] != "groupId"[0] && "messageId"[0] != "traits"[0];
  }

  /** The group call of a map with exactly the keys `groupId` and `traits`. */
  lemma IdAndTraitsCall(t: SegmentTransformer, source: Value, m: Spec, id: Branch, tr: Branch)
    requires DistinctKeys(m) && WordKeyed(m)
    requires Get(m, StrKey("groupId")) == Some(id) && Get(m, StrKey("traits")) == Some(tr)
    requires StrKey("context") !in KeysOf(m) && StrKey("messageId") !in KeysOf(m)
    requires t.GroupCall(source, Nested(m)).Ok?
    ensures var r := t.GroupCall(source, Nested(m)).value;
            var v := Field(t.hash, source, id);
            && (r.Some? <==> v.Some? && !IsEmpty(v.value))
            && (r.Some? ==> Get(r.value, StrKey("groupId")) == v)
            && (r.Some? ==> Get(r.value, StrKey("traits")) == Field(t.hash, source, tr))
  {
    GroupCallFields(t, source, m);
    GetIffKey(m, StrKey("groupId"));
    GetIffKey(m, StrKey("traits"));
    assert FieldOf(t.hash, source, m, StrKey("groupId")) == Field(t.hash, source, id);
    assert FieldOf(t.hash, source, m, StrKey("traits")) == Field(t.hash, source, tr);
  }

  /** A group registered by field gives a call exactly when the field resolves to a non-falsy
      value; the call then carries that value as `groupId`, the traits tree's result as
      `traits`, and no `context` or `messageId`. */
  lemma GroupFieldCall(t: SegmentTransformer, source: Value, field: string, traits: Spec)
    requires t.GroupCall(source, Nested(GroupFieldMap(field, traits))).Ok?
    ensures var r := t.GroupCall(source, Nested(GroupFieldMap(field, traits))).value;
            var id := Field(t.hash, source, Path(field));
            && (r.Some? <==> id.Some? && !IsEmpty(id.value))
            && (r.Some? ==> Get(r.value, StrKey("groupId")) == id)
            && (r.Some? ==> Get(r.value, StrKey("traits")) == Field(t.hash, source, Nested(traits)))
            && (r.Some? ==> Get(r.value, StrKey("context")) == None && Get(r.value, StrKey("messageId")) == None)
  {
    GroupFieldShape(field, traits);
    IdAndTraitsCall(t, source, GroupFieldMap(field, traits), Path(field), Nested(traits));
    GroupCallFields(t, source, GroupFieldMap(field, traits));
  }

  /** The filter `register_segment_group_map` adds, as written: `return $groups[] = $map`
      returns the value of the assignment, the map itself, in place of the list. */
  function RegisterAsWritten(groups: Spec, registered: Spec): Spec {
    registered
  }

  /** The next index `$groups[] = ...` uses: one past the largest integer key, 0 with none. */
  function NextIndex(groups: Spec): (n: nat)
    ensures forall i :: 0 <= i < |groups| && groups[i].0.IntKey? ==> groups[i].0.n < n
  {
    if groups == [] then 0
    else
      var k := groups[|groups| - 1].0;
      var rest := NextIndex(groups[..|groups| - 1]);
      if k.IntKey? && k.n + 1 > rest then k.n + 1 else rest
  }

  /** The filter `register_segment_group_map` evidently means to add: the map appended to the
      list of registered maps. */
  function Register(groups: Spec, registered: Spec): (r: Spec)
    ensures DistinctKeys(groups) ==> DistinctKeys(r)
    ensures |r| == |groups| + 1 && r[..|groups|] == groups && r[|groups|].1 == Nested(registered)
  {
    var r := groups + [(IntKey(NextIndex(groups)), Nested(registered))];
    assert r[..|groups|] == groups;
    r
  }

  /** As written, registering a group by field makes every event fail: the groups list is
      the map itself, whose first value, the field path, is not an array. */
  lemma RegisteredFieldBreaks(t: SegmentTransformer, source: Value, groups: Spec, field: string, traits: Spec)
    requires source.Arr? && t.maps.groups == RegisterAsWritten(groups, GroupFieldMap(field, traits))
    ensures t.Groups(source) == Fatal(TypeError)
    ensures t.Transform(source).Fatal?
  {
    var gs := t.maps.groups;
    var results := t.GroupResults(source, gs);
    CollectFatal(results);
    assert results[0] == Fatal(TypeError);
    var i :| 0 <= i < |results| && results[i] == Fatal(Collect(results).fault) &&
             forall j :: 0 <= j < i ==> results[j].Ok?;
    assert i == 0;
  }

  /** Registered the intended way, a group by field adds its call, when it has one, after
      the calls of the groups registered before it. */
  lemma RegisteredFieldCall(t: SegmentTransformer, source: Value, groups: Spec, field: string, traits: Spec)
    requires source.Arr? && t.maps.groups == Register(groups, GroupFieldMap(field, traits))
    requires t.Groups(source).Ok?
    ensures var before := t.GroupsOf(source, groups);
            var after := t.Groups(source).value;
            var id := Field(t.hash, source, Path(field));
            && before.Ok?
            && |before.value| <= |after| <= |before.value| + 1
            && after[..|before.value|] == before.value
            && (|after| == |before.value| + 1 <==> id.Some? && !IsEmpty(id.value))
            && (|after| == |before.value| + 1 ==> Get(after[|before.value|], StrKey("groupId")) == id)
  {
    var m := GroupFieldMap(field, traits);
    var e := (IntKey(NextIndex(groups)), Nested(m));
    assert t.maps.groups == groups + [e];
    GroupsAppend(t, source, groups, [e]);
    GroupsOfOne(t, source, e);
    ChainOne(t.GroupsOf(source, groups), t.GroupCall(source, Nested(m)));
    GroupFieldCall(t, source, field, traits);
  }
}
