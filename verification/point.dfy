/**
 The `Point` entity of `point.rs`: a measurement name, a tag map, a field map
 and an instant, with its setters, getters and removers. Each mutating
 method of the source (`&mut self -> &mut Self`) is a function from the old
 point to the new one.
 */
module Points {
  import opened Base
  import opened Names
  import opened TagNames
  import opened PointValues
  import opened Codec

  datatype Point = Point(
    measurement: string,
    tags: TagMap,
    fields: map<string, PointValue>,
    time: int)

  /** `Point::default()`: empty name and maps, the Unix epoch. */
  function Default(): (p: Point)
    ensures p.measurement == [] && p.tags == map[] && p.fields == map[] && p.time == 0
  {
    Point([], map[], map[], 0)
  }

  /** `new_with_measurement`; `now` stands for `Utc::now()`. */
  function NewWithMeasurement(name: string, now: int): (p: Point)
    ensures p.measurement == name && p.time == now
    ensures IsEmpty(p) && p.tags == map[]
  {
    Point(name, map[], map[], now)
  }

  /**
   `Point::new`: tags and fields are collected from the given sequences, a
   later entry overwriting an earlier one with the same key. Field names are
   not validated on this path.
   */
  function New(name: string, tags: seq<(TagName, string)>, fields: seq<(string, PointValue)>, timestamp: int): (p: Point)
    ensures p.measurement == name && p.time == timestamp
    ensures p.tags.Keys == Keys(tags) && p.fields.Keys == Keys(fields)
  {
    Point(name, CollectMap(tags), CollectMap(fields), timestamp)
  }

  function GetMeasurement(p: Point): string {
    p.measurement
  }

  /** `set_measurement`: replaces the name, nothing else. */
  function SetMeasurement(p: Point, name: string): (r: Point)
    ensures GetMeasurement(r) == name
    ensures r.tags == p.tags && r.fields == p.fields && r.time == p.time
  {
    p.(measurement := name)
  }

  /** `set_timestamp`: replaces the instant, nothing else. */
  function SetTimestamp(p: Point, t: int): (r: Point)
    ensures r.time == t
    ensures r.measurement == p.measurement && r.tags == p.tags && r.fields == p.fields
  {
    p.(time := t)
  }

  /**
   `set_tag`: the source converts the key with `expect`, so an invalid tag
   name is a panic; here it is the caller's obligation.
   */
  function SetTag(p: Point, key: string, value: string): (r: Point)
    requires ValidateName(key)
    ensures GetTag(r, key) == Some(value)
    ensures forall k :: ValidateName(k) && k != key ==> GetTag(r, k) == GetTag(p, k)
    ensures r.tags.Keys == p.tags.Keys + {TagNameText(key)}
    ensures r.measurement == p.measurement && r.fields == p.fields && r.time == p.time
  {
    p.(tags := p.tags[TagNameText(key) := value])
  }

  /** `get_tag` (the key is converted with `expect` as in `set_tag`). */
  function GetTag(p: Point, key: string): (r: Option<string>)
    requires ValidateName(key)
    ensures r.Some? <==> exists k :: k in p.tags && k.text == key
    ensures forall k :: k in p.tags && k.text == key ==> r == Some(p.tags[k])
  {
    var k: TagName := TagNameText(key);
    if k in p.tags then Some(p.tags[k]) else None
  }

  /** `has_tag`. */
  function HasTag(p: Point, key: string): (b: bool)
    requires ValidateName(key)
    ensures b <==> GetTag(p, key).Some?
  {
    TagNameText(key) in p.tags
  }

  /** `remove_tag`: deletes that one key. */
  function RemoveTag(p: Point, key: string): (r: Point)
    requires ValidateName(key)
    ensures GetTag(r, key) == None
    ensures forall k :: ValidateName(k) && k != key ==> GetTag(r, k) == GetTag(p, k)
    ensures r.tags.Keys == p.tags.Keys - {TagNameText(key)}
    ensures r.measurement == p.measurement && r.fields == p.fields && r.time == p.time
  {
    p.(tags := p.tags - {TagNameText(key)})
  }

  /** `get_tag_names`, without the hash map's order. */
  function GetTagNames(p: Point): (names: set<string>)
    ensures forall n :: n in names ==> ValidateName(n)
    ensures forall n :: ValidateName(n) ==> (n in names <==> HasTag(p, n))
  {
    set k | k in p.tags :: k.text
  }

  /** `get_field`: an absent key is `Ok(None)`, a present one is decoded. */
  function GetField(p: Point, key: string, t: Ty): (r: Result<Option<Val>, Error>)
    requires Decodable(t)
    ensures key !in p.fields ==> r == Ok(None)
    ensures key in p.fields ==> (r.Ok? <==> Decode(t, p.fields[key]).Ok?)
    ensures r.Ok? && r.value.Some? ==> key in p.fields && HasType(r.value.value, t) && Encode(t, r.value.value) == p.fields[key]
    ensures r.Err? ==> r.error.InvalidPointValueConversion?
  {
    if key !in p.fields then Ok(None)
    else
      match Decode(t, p.fields[key])
      case Ok(x) => DecodeThenEncode(t, p.fields[key]); Ok(Some(x))
      case Err(e) => Err(e)
  }

  /**
   `set_field`: a key that fails the name validator is silently ignored;
   a valid one is set to the encoded value.
   */
  function SetField(p: Point, key: string, t: Ty, v: Val): (r: Point)
    requires HasType(v, t)
    ensures !ValidateName(key) ==> r == p
    ensures ValidateName(key) ==> key in r.fields && r.fields[key] == Encode(t, v)
    ensures forall k :: k != key ==> (k in r.fields <==> k in p.fields)
    ensures forall k :: k != key && k in p.fields ==> r.fields[k] == p.fields[k]
    ensures r.measurement == p.measurement && r.tags == p.tags && r.time == p.time
  {
    if ValidateName(key) then p.(fields := p.fields[key := Encode(t, v)]) else p
  }

  /** `remove_field`: deletes that one key. */
  function RemoveField(p: Point, key: string): (r: Point)
    ensures key !in r.fields
    ensures forall k :: k != key ==> (k in r.fields <==> k in p.fields)
    ensures forall k :: k != key && k in p.fields ==> r.fields[k] == p.fields[k]
    ensures r.measurement == p.measurement && r.tags == p.tags && r.time == p.time
  {
    p.(fields := p.fields - {key})
  }

  /** `get_field_names`, without the hash map's order. */
  function GetFieldNames(p: Point): set<string> {
    p.fields.Keys
  }

  /** `is_empty`: a point without fields, whatever its tags. */
  predicate IsEmpty(p: Point) {
    |p.fields| == 0
  }

  // ---- Properties --------------------------------------------------------

  /** `Point::new` keeps, for each key, the value of its last entry. */
  lemma NewLastWins(name: string, tags: seq<(TagName, string)>, fields: seq<(string, PointValue)>, timestamp: int, i: nat, j: nat)
    requires i < |tags| && forall k :: i < k < |tags| ==> tags[k].0 != tags[i].0
    requires j < |fields| && forall k :: j < k < |fields| ==> fields[k].0 != fields[j].0
    ensures var p := New(name, tags, fields, timestamp);
      tags[i].0 in p.tags && p.tags[tags[i].0] == tags[i].1
      && fields[j].0 in p.fields && p.fields[fields[j].0] == fields[j].1
  {
    CollectMapLast(tags, i);
    CollectMapLast(fields, j);
  }

  /** Setting a field with a valid name and reading it back gives the value, for every flat decodable type. */
  lemma SetThenGetField(p: Point, key: string, t: Ty, v: Val)
    requires ValidateName(key) && HasType(v, t) && Decodable(t) && Flat(t)
    ensures GetField(SetField(p, key, t, v), key, t) == Ok(Some(v))
  {
    EncodeThenDecode(t, v);
  }

  /** A point is empty exactly when it has no field names. */
  lemma IsEmptyIffNoFieldNames(p: Point)
    ensures IsEmpty(p) <==> GetFieldNames(p) == {}
  {
    if GetFieldNames(p) != {} {
      var k :| k in p.fields;
    }
  }

  /**
   The field names follow `set_field` and `remove_field`: a valid name is
   added, an invalid one changes nothing, a removed name is gone and no
   other name moves.
   */
  lemma FieldNamesTrack(p: Point, key: string, t: Ty, v: Val)
    requires HasType(v, t)
    ensures GetFieldNames(SetField(p, key, t, v)) == if ValidateName(key) then GetFieldNames(p) + {key} else GetFieldNames(p)
    ensures GetFieldNames(RemoveField(p, key)) == GetFieldNames(p) - {key}
  {
  }

  /**
   `is_empty` looks at the fields only: tags do not change it, the default
   point is empty, and removing a field empties a point exactly when that
   was its only field.
   */
  lemma EmptinessTracksFields(p: Point, key: string, value: string)
    requires ValidateName(key)
    ensures IsEmpty(SetTag(p, key, value)) == IsEmpty(p)
    ensures IsEmpty(RemoveTag(p, key)) == IsEmpty(p)
    ensures IsEmpty(Default())
    ensures IsEmpty(RemoveField(p, key)) <==> GetFieldNames(p) <= {key}
  {
  }

  /** Setting a field with a valid name makes the point non-empty. */
  lemma SetFieldMakesNonEmpty(p: Point, key: string, t: Ty, v: Val)
    requires ValidateName(key) && HasType(v, t)
    ensures !IsEmpty(SetField(p, key, t, v))
  {
    var r := SetField(p, key, t, v);
    assert key in r.fields;
  }

  /** Removing a field undoes setting it on a point that lacked it. */
  lemma RemoveUndoesSetField(p: Point, key: string, t: Ty, v: Val)
    requires HasType(v, t) && key !in p.fields
    ensures RemoveField(SetField(p, key, t, v), key) == p
  {
    assert RemoveField(SetField(p, key, t, v), key).fields == p.fields;
  }

  /** Removing a tag undoes setting it on a point that lacked it. */
  lemma RemoveUndoesSetTag(p: Point, key: string, value: string)
    requires ValidateName(key) && !HasTag(p, key)
    ensures RemoveTag(SetTag(p, key, value), key) == p
  {
    assert TagNameText(key) !in p.tags;
    RemoveAfterUpdate(p.tags, TagNameText(key), value);
  }

  lemma RemoveAfterUpdate<K, V>(m: map<K, V>, k: K, v: V)
    requires k !in m
    ensures m[k := v] - {k} == m
  {
  }

  /** Setting a tag twice keeps only the second value. */
  lemma SetTagOverwrites(p: Point, key: string, v1: string, v2: string)
    requires ValidateName(key)
    ensures SetTag(SetTag(p, key, v1), key, v2) == SetTag(p, key, v2)
  {
    UpdateTwice(p.tags, TagNameText(key), v1, v2);
  }

  lemma UpdateTwice<K, V>(m: map<K, V>, k: K, v1: V, v2: V)
    ensures m[k := v1][k := v2] == m[k := v2]
  {
  }
}
