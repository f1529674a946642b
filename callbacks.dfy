/**
 * The functions a mapping expression `path|callback` can name, looked up by the callable's
 * name as PHP would resolve the string, and the conversion PHP applies to the argument when
 * the call site is in coercive typing mode.
 */
module Callbacks {
  import opened Php
  import Calendar

  /** The namespace both transformer classes are declared in. */
  const NAMESPACE: string := "Altis\\Analytics\\Integration\\Segment\\Export\\"
  const EXPORT_CLASS: string := NAMESPACE + "Segment_Transformer"
  const LEGACY_CLASS: string := NAMESPACE + "SegmentTransformer"

  const UCFIRST: string := "ucfirst"
  const MILLISECONDS_TO_ISO8601: string := EXPORT_CLASS + "::milliseconds_to_iso8601"
  const HASH_EVENT: string := EXPORT_CLASS + "::hash_event"
  const FORMAT_DATE: string := LEGACY_CLASS + "::format_date"

  // ---------------------------------------------------------------------------------------
  // Argument coercion

  /** A value passed to a `string` parameter: integers are written in decimal, booleans become
      "1" or "", arrays are refused. */
  function StringArgument(v: Value): (r: Outcome<string>)
    ensures v.Str? ==> r == Ok(v.s)
    ensures r.Fatal? <==> v.Arr?
  {
    match v
    case Null => Ok("")
    case Bool(b) => Ok(if b then "1" else "")
    case Int(i) => Ok(IntToString(i))
    case Str(s) => Ok(s)
    case Arr(_) => Fatal(TypeError)
  }

  /** A value passed to an `int` parameter of a user function: integers as they are, booleans
      as 0 or 1, strings only when they hold an integer; anything else is refused. */
  function IntArgument(v: Value): (r: Outcome<int>)
    ensures v.Int? ==> r == Ok(v.i)
    ensures v.Null? || v.Arr? ==> r.Fatal?
  {
    match v
    case Null => Fatal(TypeError)
    case Bool(b) => Ok(if b then 1 else 0)
    case Int(i) => Ok(i)
    case Str(s) => if IsIntegerString(s) then Ok(IntegerStringValue(s)) else Fatal(TypeError)
    case Arr(_) => Fatal(TypeError)
  }

  /** `$ms / 1000` passed on as an `int`: the float quotient is truncated toward zero. */
  function MillisToSeconds(ms: int): (secs: int)
    ensures ms >= 0 ==> 0 <= ms - 1000 * secs < 1000
    ensures ms < 0 ==> 0 <= 1000 * secs - ms < 1000
  {
    if ms >= 0 then ms / 1000 else -((-ms) / 1000)
  }

  // ---------------------------------------------------------------------------------------
  // The callbacks

  predicate IsLower(c: char) { 'a' <= c <= 'z' }

  function ToUpper(c: char): char {
    if IsLower(c) then (c as int - 32) as char else c
  }

  /** `ucfirst($s)`: the first byte in upper case when it is a lower-case ASCII letter. */
  function Ucfirst(s: string): (r: string)
    ensures |r| == |s| && (r != [] ==> !IsLower(r[0]))
    ensures forall i :: 0 <= i < |s| ==> (r[i] != s[i] <==> i == 0 && IsLower(s[0]))
  {
    if s != [] then [ToUpper(s[0])] + s[1..] else s
  }

  /** `Segment_Transformer::milliseconds_to_iso8601($t)`: the millisecond count divided by 1000
      and formatted with `date('c')`. */
  function MillisecondsToIso8601(t: int): (r: string)
    ensures exists dt :: Calendar.Valid(dt) && Calendar.ToUnixTime(dt) == MillisToSeconds(t) && r == Calendar.FormatC(dt)
  {
    Calendar.DateC(MillisToSeconds(t))
  }

  /** `SegmentTransformer::format_date($t)`: a timestamp whose decimal text is longer than ten
      characters is taken for milliseconds, any other for seconds. */
  function FormatDate(t: int): (r: string)
    ensures r == Calendar.DateC(t) || r == MillisecondsToIso8601(t)
  {
    Calendar.DateC(if |IntToString(t)| > 10 then MillisToSeconds(t) else t)
  }

  /** Calls the callable named `name` on `v`; `hash` stands for `md5(json_encode($v))`. */
  function Apply(name: string, v: Value, hash: Value -> string): (r: Outcome<Value>)
    ensures r.Ok? ==> r.value.Str?
    ensures name !in {UCFIRST, MILLISECONDS_TO_ISO8601, HASH_EVENT, FORMAT_DATE} ==>
              r == Fatal(UndefinedFunction(name))
  {
    if name == UCFIRST then
      match StringArgument(v)
      case Fatal(f) => Fatal(f)
      case Ok(s) => Ok(Str(Ucfirst(s)))
    else if name == MILLISECONDS_TO_ISO8601 then
      match IntArgument(v)
      case Fatal(f) => Fatal(f)
      case Ok(t) => Ok(Str(MillisecondsToIso8601(t)))
    else if name == FORMAT_DATE then
      match IntArgument(v)
      case Fatal(f) => Fatal(f)
      case Ok(t) => Ok(Str(FormatDate(t)))
    else if name == HASH_EVENT then
      Ok(Str(hash(v)))
    else
      Fatal(UndefinedFunction(name))
  }

  // ---------------------------------------------------------------------------------------
  // Properties

  /** Upper-casing the first letter twice changes nothing more. */
  lemma UcfirstIdempotent(s: string)
    ensures Ucfirst(Ucfirst(s)) == Ucfirst(s)
  {
  }

  /** The date written is the instant `t` milliseconds after the epoch, cut to the whole
      second toward zero. */
  lemma MillisecondsToIso8601Instant(t: int)
    ensures var secs := MillisToSeconds(t);
            var dt := Calendar.FromUnixTime(secs);
            && Calendar.Valid(dt)
            && MillisecondsToIso8601(t) == Calendar.FormatC(dt)
            && Calendar.ToUnixTime(dt) == secs
  {
    Calendar.UnixTimeRoundTrip(MillisToSeconds(t));
  }

  /** The decimal text of `t` is longer than ten characters exactly when `t` has eleven or
      more digits, or ten digits and a minus sign. */
  lemma FormatDateDigits(t: int)
    ensures |IntToString(t)| > 10 <==> t >= 10_000_000_000 || t <= -1_000_000_000
  {
    assert Pow10(10) == 10_000_000_000;
    assert Pow10(9) == 1_000_000_000;
    if t >= 0 {
      DecimalLength(t, 10);
    } else {
      DecimalLength(-t, 9);
    }
  }

  /** Timestamps of at most ten digits pass through as seconds; longer ones are read as
      milliseconds, so a millisecond count and its seconds give the same date. */
  lemma FormatDateUnits(t: int)
    ensures 0 <= t < 10_000_000_000 ==> FormatDate(t) == Calendar.DateC(t)
    ensures t >= 10_000_000_000 ==> FormatDate(t) == MillisecondsToIso8601(t)
  {
    FormatDateDigits(t);
  }

  /** The registered names are distinct, none is `static`, and none holds a '|', so each can
      follow a path in a mapping expression. */
  lemma CallbackNames()
    ensures '|' !in MILLISECONDS_TO_ISO8601 && '|' !in HASH_EVENT && '|' !in FORMAT_DATE
    ensures MILLISECONDS_TO_ISO8601 != "static" && HASH_EVENT != "static" && FORMAT_DATE != "static"
    ensures |{UCFIRST, MILLISECONDS_TO_ISO8601, HASH_EVENT, FORMAT_DATE}| == 4
  {
    PipeFreeClasses();
    PipeFreeMethods();
    assert HASH_EVENT[50] == '_' && FORMAT_DATE[50] == 'T';
  }

  lemma PipeFreeClasses()
    ensures '|' !in EXPORT_CLASS && '|' !in LEGACY_CLASS
  {
    assert '|' !in NAMESPACE;
  }

  lemma PipeFreeMethods()
    ensures '|' !in "::milliseconds_to_iso8601" && '|' !in "::hash_event" && '|' !in "::format_date"
  {
  }

  /** `hash_event` hashes whatever it is given. */
  lemma HashEventApplied(v: Value, hash: Value -> string)
    ensures Apply(HASH_EVENT, v, hash) == Ok(Str(hash(v)))
  {
    assert |HASH_EVENT| == |NAMESPACE| + 31 && |MILLISECONDS_TO_ISO8601| == |NAMESPACE| + 44;
    assert HASH_EVENT[50] == '_' && FORMAT_DATE[50] == 'T';
  }

  /** The date converters turn an integer timestamp into its date. */
  lemma MillisecondsApplied(t: int, hash: Value -> string)
    ensures Apply(MILLISECONDS_TO_ISO8601, Int(t), hash) == Ok(Str(MillisecondsToIso8601(t)))
  {
    CallbackNames();
    var r := Apply(MILLISECONDS_TO_ISO8601, Int(t), hash);
    assert IntArgument(Int(t)) == Ok(t);
    assert r == Ok(Str(MillisecondsToIso8601(t)));
  }

  lemma FormatDateApplied(t: int, hash: Value -> string)
    ensures Apply(FORMAT_DATE, Int(t), hash) == Ok(Str(FormatDate(t)))
  {
    CallbackNames();
    assert FORMAT_DATE != MILLISECONDS_TO_ISO8601 && FORMAT_DATE != UCFIRST;
    var r := Apply(FORMAT_DATE, Int(t), hash);
    assert IntArgument(Int(t)) == Ok(t);
    assert r == Ok(Str(FormatDate(t)));
  }

  lemma UcfirstExample()
    ensures Ucfirst("shady") == "Shady"
  {
  }

  lemma DateExample1()
    ensures Calendar.FromUnixTime(1643673911) == Calendar.DateTime(2022, 2, 1, 0, 5, 11)
  {
    assert 1643673911 / 86400 == 19024 && 1643673911 % 86400 == 311;
    assert Calendar.EraYear(8007) == (21, 337);
    assert Calendar.MonthDay(337) == (2, 1);
    assert Calendar.CivilFromDays(19024) == (2022, 2, 1);
  }

  lemma YearExample()
    ensures Calendar.YearText(2022) == "2022"
  {
    assert Decimal(2022) == "2022";
  }

  lemma FormatExample1()
    ensures Calendar.FormatC(Calendar.DateTime(2022, 2, 1, 0, 5, 11)) == "2022-02-01T00:05:11+00:00"
  {
    var dt := Calendar.DateTime(2022, 2, 1, 0, 5, 11);
    assert Calendar.Valid(dt) by {
      assert !Calendar.IsLeapYear(2022);
    }
    YearExample();
    TailExample1();
  }

  lemma TailExample1()
    ensures Calendar.Tail(Calendar.DateTime(2022, 2, 1, 0, 5, 11)) == "-02-01T00:05:11+00:00"
  {
    assert Calendar.Pad2(2) == "02" && Calendar.Pad2(1) == "01" && Calendar.Pad2(0) == "00" && Calendar.Pad2(5) == "05" && Calendar.Pad2(11) == "11";
  }

  lemma MillisecondsExample()
    ensures MillisecondsToIso8601(1643673911400) == "2022-02-01T00:05:11+00:00"
  {
    assert MillisToSeconds(1643673911400) == 1643673911;
    DateExample1();
    FormatExample1();
    assert Calendar.DateC(1643673911) == "2022-02-01T00:05:11+00:00";
  }

  lemma DateExample2()
    ensures Calendar.FromUnixTime(1646014407) == Calendar.DateTime(2022, 2, 28, 2, 13, 27)
  {
    assert 1646014407 / 86400 == 19051 && 1646014407 % 86400 == 8007;
    assert Calendar.EraYear(8034) == (21, 364);
    assert Calendar.MonthDay(364) == (2, 28);
    assert Calendar.CivilFromDays(19051) == (2022, 2, 28);
  }

  lemma FormatExample2()
    ensures Calendar.FormatC(Calendar.DateTime(2022, 2, 28, 2, 13, 27)) == "2022-02-28T02:13:27+00:00"
  {
    var dt := Calendar.DateTime(2022, 2, 28, 2, 13, 27);
    assert Calendar.Valid(dt) by {
      assert !Calendar.IsLeapYear(2022);
    }
    YearExample();
    TailExample2();
  }

  lemma TailExample2()
    ensures Calendar.Tail(Calendar.DateTime(2022, 2, 28, 2, 13, 27)) == "-02-28T02:13:27+00:00"
  {
    assert Calendar.Pad2(2) == "02" && Calendar.Pad2(28) == "28" && Calendar.Pad2(13) == "13" && Calendar.Pad2(27) == "27";
  }

  /** `format_date` reads a ten-digit timestamp as seconds. */
  lemma FormatDateSecondsExample()
    ensures FormatDate(1646014407) == "2022-02-28T02:13:27+00:00"
  {
    FormatDateUnits(1646014407);
    DateExample2();
    FormatExample2();
    assert Calendar.DateC(1646014407) == "2022-02-28T02:13:27+00:00";
  }

  /** `format_date` reads a thirteen-digit timestamp as milliseconds. */
  lemma FormatDateMillisecondsExample()
    ensures FormatDate(1643673911400) == "2022-02-01T00:05:11+00:00"
  {
    FormatDateUnits(1643673911400);
    MillisecondsExample();
  }
}
