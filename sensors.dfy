/**
 * The sensor catalogue (episode 8), in one table with a composite key:
 *
 *   SENSOR#<id>    SENSORINFO            city, building, floor, room
 *   SENSOR#<id>    READ#<RFC 3339 time>  value
 *   CITY#<city>    LOCATION#<b>#<f>#<r>  id
 *
 * A sensor is registered at most once, together with its location row;
 * readings sort below SENSORINFO, so one descending query returns the sensor
 * row first and then the newest readings; a begins_with query on the location
 * path lists the sensors of a city, building or floor.
 *
 * Items are maps from attribute name to string value (every attribute of these
 * items is a string); a missing attribute unmarshals to "".
 */
module Sensors {
  import opened Optional
  import opened Dynamo
  import Text
  import Clock

  const SensorPrefix := "SENSOR#"
  const SensorInfo := "SENSORINFO"
  const ReadPrefix := "READ#"
  const CityPrefix := "CITY#"
  const LocationPrefix := "LOCATION#"
  const Separator := '#'

  const AlreadyRegistered := "already registered"
  const BadTimestamp := "I would handle that in production"
  /** Go's runtime panics: `strings.Split(s, "#")[1]` on a string without '#',
      `out.Items[0]` on an empty page, and `.S` on a missing attribute. */
  const IndexOutOfRange := "index out of range"
  const NilDereference := "invalid memory address or nil pointer dereference"

  datatype Sensor = Sensor(id: string, city: string, building: string, floor: string, room: string)
  datatype Reading = Reading(sensorId: string, value: string, readAt: Clock.Instant)
  datatype Location = Location(city: string, building: string, floor: string)

  const NoSensor := Sensor("", "", "", "", "")

  type Attrs = map<string, string>
  type Rows = map<Key, Attrs>

  // ------------------------------------------------------------ encodings

  function SensorKey(id: string): Key
  {
    Key(SensorPrefix + id, SensorInfo)
  }

  function SensorAttrs(s: Sensor): Attrs
  {
    map["city" := s.city, "building" := s.building, "floor" := s.floor, "room" := s.room]
  }

  function ReadingKey(r: Reading): Key
  {
    Key(SensorPrefix + r.sensorId, ReadPrefix + Clock.FormatSeconds(r.readAt))
  }

  function ReadingAttrs(r: Reading): Attrs
  {
    map["value" := r.value]
  }

  function LocationSortKey(s: Sensor): string
  {
    LocationPrefix + s.building + [Separator] + s.floor + [Separator] + s.room
  }

  function LocationKey(s: Sensor): Key
  {
    Key(CityPrefix + s.city, LocationSortKey(s))
  }

  function LocationAttrs(s: Sensor): Attrs
  {
    map["id" := s.id]
  }

  /** asSensor: the id is field 1 of the partition key split at '#'; None
      where that index panics. */
  function AsSensor(k: Key, a: Attrs): (r: Option<Sensor>)
    ensures r.Some? <==> Separator in k.pk
  {
    FieldOneExists(k.pk, Separator);
    match Text.Field(k.pk, Separator, 1)
    case None => None
    case Some(id) => Some(Sensor(id, Attr(a, "city"), Attr(a, "building"), Attr(a, "floor"), Attr(a, "room")))
  }

  /** asReading: the time is field 1 of the sort key parsed as RFC 3339, the
      sensor id field 1 of the partition key. */
  function AsReading(k: Key, a: Attrs): Call<Reading>
  {
    match Text.Field(k.sk, Separator, 1)
    case None => Panic(IndexOutOfRange)
    case Some(stamp) =>
      match Clock.ParseSeconds(stamp)
      case None => Panic(BadTimestamp)
      case Some(t) =>
        match Text.Field(k.pk, Separator, 1)
        case None => Panic(IndexOutOfRange)
        case Some(id) => Return(Reading(id, Attr(a, "value"), t), None)
  }

  lemma FieldOneExists(s: string, sep: char)
    ensures Text.Field(s, sep, 1).Some? <==> sep in s
  {
    match Text.IndexOf(s, sep)
    case None =>
    case Some(i) => assert Text.Field(s[i + 1..], sep, 0).Some?;
  }

  /** Decoding the sensor row gives back the registered sensor. */
  lemma SensorRoundTrip(s: Sensor)
    requires Separator !in s.id
    ensures AsSensor(SensorKey(s.id), SensorAttrs(s)) == Some(s)
  {
    assert SensorPrefix == "SENSOR" + [Separator];
    Text.SecondField("SENSOR", Separator, s.id);
  }

  /** A digit string holds no separator. */
  lemma DigitsHaveNoSeparator(s: string)
    requires Clock.AllDigits(s)
    ensures Separator !in s
  {
    forall i | 0 <= i < |s| ensures s[i] != Separator {
      assert Clock.IsDigit(s[i]);
    }
  }

  /** Decoding a reading row gives back the reading, its time cut to whole seconds. */
  lemma ReadingRoundTrip(r: Reading)
    requires Separator !in r.sensorId
    ensures AsReading(ReadingKey(r), ReadingAttrs(r)) == Return(Reading(r.sensorId, r.value, Clock.Truncate(r.readAt)), None)
  {
    var stamp := Clock.FormatSeconds(r.readAt);
    DigitsHaveNoSeparator(stamp);
    assert ReadPrefix == "READ" + [Separator];
    Text.SecondField("READ", Separator, stamp);
    assert SensorPrefix == "SENSOR" + [Separator];
    Text.SecondField("SENSOR", Separator, r.sensorId);
    Clock.ParseFormatSeconds(r.readAt);
  }

  // ------------------------------------------------------------ sort order

  /** A reading sort key: READ# followed by an RFC 3339 time. */
  predicate IsReadingSortKey(sk: string)
  {
    Text.IsPrefix(ReadPrefix, sk) && Clock.ParseSeconds(sk[|ReadPrefix|..]).Some?
  }

  function ReadTime(sk: string): Clock.Instant
    requires IsReadingSortKey(sk)
  {
    Clock.ParseSeconds(sk[|ReadPrefix|..]).value
  }

  lemma ReadingKeyIsReadingSortKey(r: Reading)
    ensures IsReadingSortKey(ReadingKey(r).sk)
    ensures ReadTime(ReadingKey(r).sk) == Clock.Truncate(r.readAt)
  {
    var sk := ReadingKey(r).sk;
    assert sk[|ReadPrefix|..] == Clock.FormatSeconds(r.readAt);
    Clock.ParseFormatSeconds(r.readAt);
  }

  /** Every reading sort key sorts below SENSORINFO ('R' < 'S'). */
  lemma ReadingSortsBeforeInfo(sk: string)
    requires Text.IsPrefix(ReadPrefix, sk)
    ensures Text.Less(sk, SensorInfo)
  {
    assert sk[0] == ReadPrefix[0];
  }

  lemma TruncateWhole(t: Clock.Instant)
    requires t % Clock.NanosPerSecond == 0
    ensures Clock.Truncate(t) == t
  {
    assert t == (t / Clock.NanosPerSecond) * Clock.NanosPerSecond + t % Clock.NanosPerSecond;
  }

  /** Reading sort keys sort as their times. */
  lemma ReadingSortKeyOrder(a: string, b: string)
    requires IsReadingSortKey(a) && IsReadingSortKey(b)
    ensures Text.Less(a, b) <==> ReadTime(a) < ReadTime(b)
  {
    var a', b' := a[|ReadPrefix|..], b[|ReadPrefix|..];
    assert a == ReadPrefix + a' && b == ReadPrefix + b';
    Text.LessCommonPrefix(ReadPrefix, a', b');
    Clock.FormatParseSeconds(a');
    Clock.FormatParseSeconds(b');
    TruncateWhole(ReadTime(a));
    TruncateWhole(ReadTime(b));
    Clock.FormatSecondsOrder(ReadTime(a), ReadTime(b));
  }

  /** A reading row of sensor `id` decodes to a reading of `id` at its sort key's time. */
  lemma ReadingRowDecodes(id: string, sk: string, a: Attrs)
    requires Separator !in id && IsReadingSortKey(sk)
    ensures AsReading(Key(SensorPrefix + id, sk), a) == Return(Reading(id, Attr(a, "value"), ReadTime(sk)), None)
    ensures ReadingKey(Reading(id, Attr(a, "value"), ReadTime(sk))) == Key(SensorPrefix + id, sk)
  {
    var stamp := sk[|ReadPrefix|..];
    assert Clock.AllDigits(stamp);
    DigitsHaveNoSeparator(stamp);
    assert ReadPrefix == "READ" + [Separator];
    assert sk == "READ" + [Separator] + stamp;
    Text.SecondField("READ", Separator, stamp);
    assert SensorPrefix == "SENSOR" + [Separator];
    Text.SecondField("SENSOR", Separator, id);
    Clock.FormatParseSeconds(stamp);
  }

  // ------------------------------------------------------- location paths

  /** asPath as written: no separator after the floor. */
  function AsPath(l: Location): string
  {
    if l.building == "" then LocationPrefix
    else if l.floor == "" then LocationPrefix + l.building + [Separator]
    else LocationPrefix + l.building + [Separator] + l.floor
  }

  /** asPath with the floor closed by a separator, so that a floor selects
      only itself and not every floor whose name it begins. */
  function LocationPath(l: Location): string
  {
    if l.building == "" then LocationPrefix
    else if l.floor == "" then LocationPrefix + l.building + [Separator]
    else LocationPrefix + l.building + [Separator] + l.floor + [Separator]
  }

  /** The sensor stands in the building, and on the floor, the location names. */
  predicate Within(l: Location, s: Sensor)
  {
    l.building == "" || (l.building == s.building && (l.floor == "" || l.floor == s.floor))
  }

  predicate NoSeparators(l: Location, s: Sensor)
  {
    Separator !in l.building && Separator !in l.floor && Separator !in s.building && Separator !in s.floor
  }

  /**
   * The path as asPath writes it selects, besides the floor asked for, every
   * floor of the building whose name begins with it: floor "1" also selects
   * floor "12".
   */
  lemma AsPathSelectsOtherFloor(l: Location, s: Sensor, more: string)
    requires l.building != "" && l.floor != "" && more != []
    requires s.building == l.building && s.floor == l.floor + more
    ensures Text.IsPrefix(AsPath(l), LocationSortKey(s)) && !Within(l, s)
  {
    assert LocationSortKey(s) == AsPath(l) + (more + [Separator] + s.room);
  }

  /** asPath misses no sensor: every sensor within the location has it as a
      prefix of its location key. */
  lemma AsPathSelectsWithin(l: Location, s: Sensor)
    requires Within(l, s)
    ensures Text.IsPrefix(AsPath(l), LocationSortKey(s))
  {
    var sk := LocationSortKey(s);
    if l.building == "" {
      assert sk[..|AsPath(l)|] == AsPath(l);
    } else if l.floor == "" {
      assert sk == AsPath(l) + (s.floor + [Separator] + s.room);
    } else {
      assert sk == AsPath(l) + ([Separator] + s.room);
    }
  }

  lemma PrefixOfConcat(p: string, a: string, b: string)
    ensures Text.IsPrefix(p + a, p + b) <==> Text.IsPrefix(a, b)
  {
    if Text.IsPrefix(a, b) {
      assert (p + b)[..|p + a|] == p + b[..|a|];
    }
    if Text.IsPrefix(p + a, p + b) {
      assert b[..|a|] == (p + b)[..|p + a|][|p|..];
    }
  }

  lemma FirstSeparatorAt(s: string, i: nat)
    requires i < |s| && s[i] == Separator && Separator !in s[..i]
    ensures Text.IndexOf(s, Separator) == Some(i)
  {
    var r := Text.IndexOf(s, Separator).value;
    assert forall j :: 0 <= j < i ==> s[..i][j] == s[j];
    assert forall j :: 0 <= j < r ==> s[..r][j] == s[j];
  }

  /** A separator-closed segment is a prefix exactly when it is the same segment. */
  lemma SegmentPrefix(a: string, b: string, rest: string)
    requires Separator !in a && Separator !in b
    ensures Text.IsPrefix(a + [Separator], b + [Separator] + rest) <==> a == b
  {
    var t := b + [Separator] + rest;
    if Text.IsPrefix(a + [Separator], t) {
      var p := a + [Separator];
      assert t[..|b|] == b && t[|b|] == Separator;
      FirstSeparatorAt(t, |b|);
      assert t[..|a|] == p[..|a|] == a && t[|a|] == p[|a|] == Separator;
      FirstSeparatorAt(t, |a|);
      assert a == t[..|a|] == b;
    }
    if a == b {
      assert t[..|a| + 1] == a + [Separator];
    }
  }

  /**
   * The location path selects exactly the sensors within the location: its
   * location sort key begins with the path if and only if the sensor stands
   * in the named building and floor.
   */
  lemma LocationPathSelects(l: Location, s: Sensor)
    requires NoSeparators(l, s)
    ensures Text.IsPrefix(LocationPath(l), LocationSortKey(s)) <==> Within(l, s)
  {
    var sk := LocationSortKey(s);
    var afterBuilding := s.floor + [Separator] + s.room;
    assert sk == LocationPrefix + (s.building + [Separator] + afterBuilding);
    if l.building == "" {
      assert sk[..|LocationPrefix|] == LocationPrefix;
    } else if l.floor == "" {
      PrefixOfConcat(LocationPrefix, l.building + [Separator], s.building + [Separator] + afterBuilding);
      SegmentPrefix(l.building, s.building, afterBuilding);
    } else {
      var path := LocationPath(l);
      assert path == LocationPrefix + (l.building + [Separator] + (l.floor + [Separator]));
      PrefixOfConcat(LocationPrefix, l.building + [Separator] + (l.floor + [Separator]), s.building + [Separator] + afterBuilding);
      SegmentPrefix(l.building, s.building, afterBuilding);
      if Text.IsPrefix(l.building + [Separator] + (l.floor + [Separator]), s.building + [Separator] + afterBuilding) {
        var x := s.building + [Separator] + afterBuilding;
        assert (l.building + [Separator] + (l.floor + [Separator]))[..|l.building| + 1] == l.building + [Separator];
        assert x[..|l.building| + 1] == (x[..|l.building + [Separator] + (l.floor + [Separator])|])[..|l.building| + 1];
      }
      if l.building == s.building {
        PrefixOfConcat(l.building + [Separator], l.floor + [Separator], afterBuilding);
        SegmentPrefix(l.floor, s.floor, s.room);
      }
    }
  }

  /** A row of `city`'s partition whose sort key begins with `path`. */
  predicate LocatedAt(k: Key, city: string, path: string)
  {
    k.pk == CityPrefix + city && Text.IsPrefix(path, k.sk)
  }

  /** Some location row of `city` under `path` names `id`. */
  ghost predicate NamedAt(rows: Rows, city: string, path: string, id: string)
  {
    exists k :: k in rows && LocatedAt(k, city, path) && Attr(rows[k], "id") == id
  }

  // ------------------------------------------------------- table invariants

  /** Sensor partitions hold the sensor row and reading rows only. */
  predicate Tidy(rows: Rows)
  {
    forall k :: k in rows && Text.IsPrefix(SensorPrefix, k.pk) ==> k.sk == SensorInfo || IsReadingSortKey(k.sk)
  }

  /** Every row of a city partition names its sensor. */
  predicate Located(rows: Rows)
  {
    forall k :: k in rows && Text.IsPrefix(CityPrefix, k.pk) ==> "id" in rows[k]
  }

  /** Every returned reading is a stored reading row of sensor `id`. */
  ghost predicate ReadingsStored(rows: Rows, id: string, readings: seq<Reading>)
  {
    forall i :: 0 <= i < |readings| ==>
      && readings[i].sensorId == id
      && ReadingKey(readings[i]) in rows
      && readings[i].value == Attr(rows[ReadingKey(readings[i])], "value")
  }

  /** Strictly newest first. */
  predicate NewestFirst(readings: seq<Reading>)
  {
    forall i, j :: 0 <= i < j < |readings| ==> readings[j].readAt < readings[i].readAt
  }

  /** A stored reading of sensor `id` that is not returned is older than every
      returned one, and then `last` readings were returned. */
  ghost predicate NoneSkipped(rows: Rows, id: string, last: int, readings: seq<Reading>)
  {
    forall k :: k in rows && k.pk == SensorPrefix + id && IsReadingSortKey(k.sk) ==>
      || (exists i :: 0 <= i < |readings| && readings[i].readAt == ReadTime(k.sk))
      || (|readings| == last && forall i :: 0 <= i < |readings| ==> ReadTime(k.sk) < readings[i].readAt)
  }

  /** The answer LatestReadings owes for a registered sensor `id`. */
  ghost predicate LatestPage(rows: Rows, id: string, last: int, sensor: Sensor, readings: seq<Reading>)
    requires SensorKey(id) in rows
  {
    && Some(sensor) == AsSensor(SensorKey(id), rows[SensorKey(id)])
    && |readings| <= last
    && ReadingsStored(rows, id, readings)
    && NewestFirst(readings)
    && NoneSkipped(rows, id, last, readings)
  }

  /** Only the sensor row can head the descending page; every other row on it is a reading. */
  lemma PageShape(rows: Rows, id: string, last: nat, items: seq<(Key, Attrs)>)
    requires Tidy(rows)
    requires QueryAnswer(rows, SensorPrefix + id, AtMost(SensorInfo), false, Some(last + 1), items)
    ensures forall i :: 1 <= i < |items| ==> IsReadingSortKey(items[i].0.sk)
    ensures SensorKey(id) in rows ==> |items| > 0 && items[0].0 == SensorKey(id)
  {
    assert Text.IsPrefix(SensorPrefix, SensorPrefix + id);
    forall i | 1 <= i < |items| ensures IsReadingSortKey(items[i].0.sk) {
      assert Text.Less(items[i].0.sk, items[0].0.sk);
      NotAboveInfo(items[0].0.sk);
      assert items[i].0.sk != SensorInfo;
    }
    var k := SensorKey(id);
    if k in rows {
      assert Matches(k, SensorPrefix + id, AtMost(SensorInfo));
      NotAboveInfo(items[0].0.sk);
      if k in KeysListed(items) {
        var j :| 0 <= j < |items| && items[j].0 == k;
        assert j == 0 by {
          assert forall m :: 0 < m < |items| ==> Text.Less(items[m].0.sk, items[0].0.sk);
        }
      }
    }
  }

  lemma NotAboveInfo(sk: string)
    requires sk == SensorInfo || Text.Less(sk, SensorInfo)
    ensures !Text.Less(SensorInfo, sk)
  {
    Text.LessIrreflexive(SensorInfo);
    if sk != SensorInfo {
      Text.LessAsymmetric(sk, SensorInfo);
    }
  }

  /** `readings` are the decodings of the items after the first. */
  ghost predicate DecodedTail(items: seq<(Key, Attrs)>, readings: seq<Reading>)
  {
    && |items| > 0 && |readings| == |items| - 1
    && forall j :: 0 <= j < |readings| ==> AsReading(items[j + 1].0, items[j + 1].1) == Return(readings[j], None)
  }

  /** The reading rows of a page of sensor `id`, in sort-key order. */
  ghost predicate ReadingPage(rows: Rows, id: string, items: seq<(Key, Attrs)>)
  {
    && (forall i :: 1 <= i < |items| ==>
          && IsReadingSortKey(items[i].0.sk)
          && items[i].0.pk == SensorPrefix + id
          && items[i].0 in rows && items[i].1 == rows[items[i].0])
    && (forall i, j :: 0 <= i < j < |items| ==> Text.Less(items[j].0.sk, items[i].0.sk))
  }

  lemma PageReadings(rows: Rows, id: string, items: seq<(Key, Attrs)>, readings: seq<Reading>)
    requires Separator !in id && ReadingPage(rows, id, items) && DecodedTail(items, readings)
    ensures forall j :: 0 <= j < |readings| ==>
      readings[j].readAt == ReadTime(items[j + 1].0.sk) && ReadingKey(readings[j]) == items[j + 1].0
    ensures ReadingsStored(rows, id, readings)
  {
    forall j | 0 <= j < |readings|
      ensures readings[j] == Reading(id, Attr(items[j + 1].1, "value"), ReadTime(items[j + 1].0.sk))
      ensures ReadingKey(readings[j]) == items[j + 1].0
    {
      ReadingRowDecodes(id, items[j + 1].0.sk, items[j + 1].1);
    }
  }

  lemma PageNewestFirst(rows: Rows, id: string, items: seq<(Key, Attrs)>, readings: seq<Reading>)
    requires ReadingPage(rows, id, items) && DecodedTail(items, readings)
    requires forall j :: 0 <= j < |readings| ==> readings[j].readAt == ReadTime(items[j + 1].0.sk)
    ensures NewestFirst(readings)
  {
    forall i, j | 0 <= i < j < |readings| ensures readings[j].readAt < readings[i].readAt {
      ReadingSortKeyOrder(items[j + 1].0.sk, items[i + 1].0.sk);
    }
  }

  /** A stored reading of the sensor is on the page, or older than every reading on a full page. */
  lemma StoredReadingOnPage(rows: Rows, id: string, last: nat, items: seq<(Key, Attrs)>, readings: seq<Reading>, k: Key)
    requires QueryAnswer(rows, SensorPrefix + id, AtMost(SensorInfo), false, Some(last + 1), items)
    requires ReadingPage(rows, id, items) && DecodedTail(items, readings) && items[0].0.sk == SensorInfo
    requires forall j :: 0 <= j < |readings| ==> readings[j].readAt == ReadTime(items[j + 1].0.sk)
    requires k in rows && k.pk == SensorPrefix + id && IsReadingSortKey(k.sk)
    ensures || (exists i :: 0 <= i < |readings| && readings[i].readAt == ReadTime(k.sk))
            || (|readings| == last && forall i :: 0 <= i < |readings| ==> ReadTime(k.sk) < readings[i].readAt)
  {
    ReadingSortsBeforeInfo(k.sk);
    assert Matches(k, SensorPrefix + id, AtMost(SensorInfo));
    if k in KeysListed(items) {
      var m :| 0 <= m < |items| && items[m].0 == k;
      assert k.sk[0] != SensorInfo[0];
      assert readings[m - 1].readAt == ReadTime(k.sk);
    } else {
      forall i | 0 <= i < |readings| ensures ReadTime(k.sk) < readings[i].readAt {
        assert Text.Less(k.sk, items[i + 1].0.sk);
        ReadingSortKeyOrder(k.sk, items[i + 1].0.sk);
      }
    }
  }

  lemma PageNoneSkipped(rows: Rows, id: string, last: nat, items: seq<(Key, Attrs)>, readings: seq<Reading>)
    requires QueryAnswer(rows, SensorPrefix + id, AtMost(SensorInfo), false, Some(last + 1), items)
    requires ReadingPage(rows, id, items) && DecodedTail(items, readings) && items[0].0.sk == SensorInfo
    requires forall j :: 0 <= j < |readings| ==> readings[j].readAt == ReadTime(items[j + 1].0.sk)
    ensures NoneSkipped(rows, id, last, readings)
  {
    forall k | k in rows && k.pk == SensorPrefix + id && IsReadingSortKey(k.sk)
      ensures || (exists i :: 0 <= i < |readings| && readings[i].readAt == ReadTime(k.sk))
              || (|readings| == last && forall i :: 0 <= i < |readings| ==> ReadTime(k.sk) < readings[i].readAt)
    {
      StoredReadingOnPage(rows, id, last, items, readings, k);
    }
  }

  /** From the descending page and its decoded readings to LatestPage. */
  lemma LatestPageFromQuery(rows: Rows, id: string, last: nat, items: seq<(Key, Attrs)>, readings: seq<Reading>)
    requires Tidy(rows) && SensorKey(id) in rows && Separator !in id
    requires QueryAnswer(rows, SensorPrefix + id, AtMost(SensorInfo), false, Some(last + 1), items)
    requires DecodedTail(items, readings)
    ensures items[0].0 == SensorKey(id)
    ensures LatestPage(rows, id, last, AsSensor(items[0].0, items[0].1).value, readings)
  {
    PageShape(rows, id, last, items);
    assert ReadingPage(rows, id, items);
    PageReadings(rows, id, items, readings);
    PageNewestFirst(rows, id, items, readings);
    PageNoneSkipped(rows, id, last, items, readings);
    assert Separator in SensorKey(id).pk by { assert SensorKey(id).pk[|SensorPrefix| - 1] == Separator; }
  }

  /** Decodes every item after the first as a reading, stopping at the first panic. */
  method DecodeReadings(items: seq<(Key, Attrs)>) returns (r: Call<seq<Reading>>)
    requires |items| > 0
    ensures r.Return? ==> r.err.None? && DecodedTail(items, r.value)
    ensures r.Panic? ==> exists i :: 1 <= i < |items| && AsReading(items[i].0, items[i].1) == Panic(r.message)
  {
    var readings: seq<Reading> := [];
    var i := 1;
    while i < |items|
      invariant 1 <= i <= |items|
      invariant |readings| == i - 1
      invariant forall j :: 0 <= j < i - 1 ==> AsReading(items[j + 1].0, items[j + 1].1) == Return(readings[j], None)
    {
      var reading := AsReading(items[i].0, items[i].1);
      if reading.Panic? {
        return Panic(reading.message);
      }
      readings := readings + [reading.value];
      i := i + 1;
    }
    r := Return(readings, None);
  }

  // ------------------------------------------------------------ the manager

  class SensorManager {
    const table: string
    var rows: Rows

    ghost predicate Valid()
      reads this
    {
      Tidy(rows) && Located(rows)
    }

    constructor(table: string, rows: Rows)
      requires Tidy(rows) && Located(rows)
      ensures Valid() && this.table == table && this.rows == rows
    {
      this.table := table;
      this.rows := rows;
    }

    /**
     * Register: the sensor row, only if no row has its key, and the location
     * row, in one transaction; every cancelled transaction is read as "the
     * sensor was registered before", a conflict included.
     */
    method Register(sensor: Sensor, fault: Option<Fault>) returns (err: Option<Error>)
      requires Valid()
      modifies this
      ensures Valid()
      ensures fault.Some? && fault != Some(ConflictFault) ==> err == Some(ErrorOf(fault.value)) && rows == old(rows)
      ensures fault == Some(ConflictFault) ==> err == Some(Message(AlreadyRegistered)) && rows == old(rows)
      ensures fault.None? && SensorKey(sensor.id) in old(rows) ==>
        err == Some(Message(AlreadyRegistered)) && rows == old(rows)
      ensures fault.None? && SensorKey(sensor.id) !in old(rows) ==>
        && err.None?
        && rows == old(rows)[SensorKey(sensor.id) := SensorAttrs(sensor)][LocationKey(sensor) := LocationAttrs(sensor)]
    {
      var put := WriteOp(SensorKey(sensor.id), Put(SensorAttrs(sensor)), Absent(), false);
      var located := WriteOp(LocationKey(sensor), Put(LocationAttrs(sensor)), Always(), false);
      assert put.key.pk[0] != located.key.pk[0];
      ApplyTwo(rows, put, located);
      var tx := TransactWriteItems(rows, [put, located], fault);
      match tx
      case Committed(after) =>
        assert !Text.IsPrefix(CityPrefix, put.key.pk) by { assert put.key.pk[0] != CityPrefix[0]; }
        assert !Text.IsPrefix(SensorPrefix, located.key.pk) by { assert located.key.pk[0] != SensorPrefix[0]; }
        rows := after;
        err := None;
      case Canceled(_) =>
        err := Some(Message(AlreadyRegistered));
      case Failed(e) =>
        err := Some(e);
    }

    /** Get: the sensor row decoded; a sensor never registered panics. */
    method Get(id: string, fault: Option<Fault>) returns (r: Call<Sensor>)
      ensures fault.Some? ==> r == Return(NoSensor, Some(ErrorOf(fault.value)))
      ensures fault.None? && SensorKey(id) !in rows ==> r == Panic(IndexOutOfRange)
      ensures fault.None? && SensorKey(id) in rows ==> r.Return? && r.err.None?
      ensures fault.None? && Separator !in id ==>
        forall s: Sensor :: s.id == id && SensorKey(id) in rows && rows[SensorKey(id)] == SensorAttrs(s) ==> r == Return(s, None)
    {
      var out := GetItem(rows, SensorKey(id), fault);
      if out.Err? {
        return Return(NoSensor, Some(out.error));
      }
      // a missing item unmarshals into the zero sensorItem, whose pk is ""
      var k, a := if out.value.Some? then SensorKey(id) else Key("", ""), if out.value.Some? then out.value.value else map[];
      assert Separator in SensorKey(id).pk by { assert SensorKey(id).pk[|SensorPrefix| - 1] == Separator; }
      var s := AsSensor(k, a);
      if s.None? {
        return Panic(IndexOutOfRange);
      }
      if Separator !in id {
        forall x: Sensor | x.id == id && SensorKey(id) in rows && rows[SensorKey(id)] == SensorAttrs(x)
          ensures s.value == x
        {
          SensorRoundTrip(x);
        }
      }
      return Return(s.value, None);
    }

    /** SaveReading: an unconditional put of the reading row. */
    method SaveReading(reading: Reading, fault: Option<Fault>) returns (err: Option<Error>)
      requires Valid()
      modifies this
      ensures Valid()
      ensures fault.Some? ==> err == Some(ErrorOf(fault.value)) && rows == old(rows)
      ensures fault.None? ==> err.None? && rows == old(rows)[ReadingKey(reading) := ReadingAttrs(reading)]
    {
      var out := WriteItem(rows, WriteOp(ReadingKey(reading), Put(ReadingAttrs(reading)), Always(), false), fault);
      if out.WriteFailed? {
        return Some(out.error);
      }
      ReadingKeyIsReadingSortKey(reading);
      assert !Text.IsPrefix(CityPrefix, ReadingKey(reading).pk) by { assert ReadingKey(reading).pk[0] != CityPrefix[0]; }
      rows := out.after;
      err := None;
    }

    /**
     * LatestReadings: one descending query of the sensor's partition for sort
     * keys up to SENSORINFO, limited to `last + 1` items; the first item is
     * decoded as the sensor, the others as its readings.
     */
    method LatestReadings(sensorId: string, last: int, fault: Option<Fault>) returns (r: Call<(Sensor, seq<Reading>)>)
      ensures fault.Some? ==> r == Return((NoSensor, []), Some(ErrorOf(fault.value)))
      ensures fault.None? && last < 0 ==> r == Return((NoSensor, []), Some(Service(ValidationException)))
      ensures fault.None? && last >= 0 && (forall k :: k in rows ==> !Matches(k, SensorPrefix + sensorId, AtMost(SensorInfo))) ==>
        r == Panic(IndexOutOfRange)
      ensures fault.None? && last >= 0 && Tidy(rows) && SensorKey(sensorId) in rows && Separator !in sensorId ==>
        r.Return? && r.err.None? && LatestPage(rows, sensorId, last, r.value.0, r.value.1)
    {
      var q := Query(rows, SensorPrefix + sensorId, AtMost(SensorInfo), false, Some(last + 1), fault);
      if q.Err? {
        return Return((NoSensor, []), Some(q.error));
      }
      var items := q.value;
      if |items| == 0 {
        return Panic(IndexOutOfRange);
      }
      var decoded := DecodeReadings(items);
      if decoded.Panic? {
        if Tidy(rows) && SensorKey(sensorId) in rows && Separator !in sensorId {
          var i :| 1 <= i < |items| && AsReading(items[i].0, items[i].1).Panic?;
          PageShape(rows, sensorId, last, items);
          ReadingRowDecodes(sensorId, items[i].0.sk, items[i].1);
        }
        return Panic(decoded.message);
      }
      var readings := decoded.value;
      // the first item lies in partition SENSOR#<id>, whose key holds a '#'
      assert items[0].0.pk[|SensorPrefix| - 1] == Separator;
      var sensor := AsSensor(items[0].0, items[0].1).value;
      if Tidy(rows) && SensorKey(sensorId) in rows && Separator !in sensorId {
        LatestPageFromQuery(rows, sensorId, last, items, readings);
      }
      r := Return((sensor, readings), None);
    }

    /**
     * The ids of the location rows of `city` whose sort key begins with
     * `path`, in the order the query returns them; a row without `id` panics.
     */
    method SensorsUnder(city: string, path: string, fault: Option<Fault>) returns (r: Call<seq<string>>)
      ensures fault.Some? ==> r == Return([], Some(ErrorOf(fault.value)))
      ensures r.Panic? ==> r.message == NilDereference && !Located(rows)
      ensures fault.None? && r.Return? ==> r.err.None?
      ensures fault.None? && Located(rows) ==> r.Return?
      ensures fault.None? && r.Return? ==>
        forall k :: k in rows && LocatedAt(k, city, path) ==> "id" in rows[k] && rows[k]["id"] in r.value
      ensures fault.None? && r.Return? ==>
        forall i :: 0 <= i < |r.value| ==> NamedAt(rows, city, path, r.value[i])
    {
      var q := Query(rows, CityPrefix + city, BeginsWith(path), true, None, fault);
      if q.Err? {
        return Return([], Some(q.error));
      }
      var items := q.value;
      assert forall j :: 0 <= j < |items| ==> items[j].0 in rows && LocatedAt(items[j].0, city, path);
      var ids: seq<string> := [];
      var i := 0;
      while i < |items|
        invariant 0 <= i <= |items|
        invariant |ids| == i
        invariant forall j :: 0 <= j < i ==> "id" in items[j].1 && ids[j] == items[j].1["id"]
      {
        if "id" !in items[i].1 {
          assert Text.IsPrefix(CityPrefix, items[i].0.pk) by {
            assert items[i].0.pk == CityPrefix + city;
          }
          return Panic(NilDereference);
        }
        ids := ids + [items[i].1["id"]];
        i := i + 1;
      }
      forall k | k in rows && LocatedAt(k, city, path) ensures "id" in rows[k] && rows[k]["id"] in ids {
        assert Matches(k, CityPrefix + city, BeginsWith(path));
        assert k in KeysListed(items);
        var j :| 0 <= j < |items| && items[j].0 == k;
        assert ids[j] == rows[k]["id"];
      }
      forall j | 0 <= j < |ids|
        ensures NamedAt(rows, city, path, ids[j])
      {
        var k := items[j].0;
        assert k in rows && LocatedAt(k, city, path) && Attr(rows[k], "id") == ids[j];
      }
      r := Return(ids, None);
    }

    /**
     * GetSensors as written: the query runs under asPath, so every sensor
     * whose location key begins with that path is returned, including those
     * on a longer floor name of the same building.
     */
    method GetSensors(location: Location, fault: Option<Fault>) returns (r: Call<seq<string>>)
      ensures fault.Some? ==> r == Return([], Some(ErrorOf(fault.value)))
      ensures r.Panic? ==> r.message == NilDereference && !Located(rows)
      ensures fault.None? && r.Return? ==> r.err.None?
      ensures fault.None? && Located(rows) ==> r.Return?
      ensures fault.None? && r.Return? ==>
        forall s: Sensor :: s.city == location.city && LocationKey(s) in rows && Text.IsPrefix(AsPath(location), LocationSortKey(s)) ==>
          "id" in rows[LocationKey(s)] && rows[LocationKey(s)]["id"] in r.value
      ensures fault.None? && r.Return? ==>
        forall i :: 0 <= i < |r.value| ==> NamedAt(rows, location.city, AsPath(location), r.value[i])
      ensures fault.None? && r.Return? ==>
        forall s: Sensor :: s.city == location.city && LocationKey(s) in rows && Within(location, s) ==>
          "id" in rows[LocationKey(s)] && rows[LocationKey(s)]["id"] in r.value
    {
      r := SensorsUnder(location.city, AsPath(location), fault);
      if fault.None? && r.Return? {
        forall s: Sensor | s.city == location.city && LocationKey(s) in rows && Text.IsPrefix(AsPath(location), LocationSortKey(s))
          ensures "id" in rows[LocationKey(s)] && rows[LocationKey(s)]["id"] in r.value
        {
          assert LocatedAt(LocationKey(s), location.city, AsPath(location));
        }
        forall s: Sensor | s.city == location.city && LocationKey(s) in rows && Within(location, s)
          ensures Text.IsPrefix(AsPath(location), LocationSortKey(s))
        {
          AsPathSelectsWithin(location, s);
        }
      }
    }

    /**
     * GetSensors with the floor closed by a separator: every sensor standing
     * within the location is returned, and every id returned names a row
     * under the closed path, which holds only sensors within the location.
     */
    method GetSensorsWithin(location: Location, fault: Option<Fault>) returns (r: Call<seq<string>>)
      ensures fault.Some? ==> r == Return([], Some(ErrorOf(fault.value)))
      ensures r.Panic? ==> r.message == NilDereference && !Located(rows)
      ensures fault.None? && r.Return? ==> r.err.None?
      ensures fault.None? && Located(rows) ==> r.Return?
      ensures fault.None? && r.Return? ==>
        forall s: Sensor :: s.city == location.city && NoSeparators(location, s) && LocationKey(s) in rows && Within(location, s) ==>
          "id" in rows[LocationKey(s)] && rows[LocationKey(s)]["id"] in r.value
      ensures fault.None? && r.Return? ==>
        forall i :: 0 <= i < |r.value| ==> NamedAt(rows, location.city, LocationPath(location), r.value[i])
    {
      r := SensorsUnder(location.city, LocationPath(location), fault);
      if fault.None? && r.Return? {
        forall s: Sensor | s.city == location.city && NoSeparators(location, s) && LocationKey(s) in rows && Within(location, s)
          ensures "id" in rows[LocationKey(s)] && rows[LocationKey(s)]["id"] in r.value
        {
          LocationPathSelects(location, s);
          assert LocatedAt(LocationKey(s), location.city, LocationPath(location));
        }
      }
    }
  }
}
