/**
 The `to_point` that `#[derive(ToPoint)]` generates (`to_point.rs`), as an
 interpreter over the parsed description: a point named after the
 measurement, its time set once, then `set_tag` for every tag field and
 `set_field` for every plain field, in declaration order. Ignored fields are
 skipped. A struct value is one `Val` per declared field.
 */
module DeriveToPoint {
  import opened Base
  import opened Names
  import opened TagNames
  import opened PointValues
  import opened Codec
  import opened Points
  import opened MacroParser

  /** The field takes part in the conversion in the given role. */
  predicate Assigned(fi: FieldInfo, role: FieldType) {
    !fi.ignore && fi.fieldType == role
  }

  /** One value per field, each of the field's type. */
  predicate Fits(fs: seq<FieldInfo>, values: seq<Val>) {
    |values| == |fs| && forall i :: 0 <= i < |fs| ==> HasType(values[i], fs[i].ty)
  }

  /**
   What the generated code needs to compile and not panic: time fields are
   `DateTime<Utc>`, tag fields are text (`set_tag` takes `&str`) stored
   under a valid tag name (`set_tag` panics on any other).
   */
  predicate Convertible(fs: seq<FieldInfo>, values: seq<Val>) {
    Fits(fs, values)
    && forall i :: 0 <= i < |fs| ==>
         (Assigned(fs[i], Time) ==> fs[i].ty == DateTimeTy)
         && (Assigned(fs[i], Tag) ==> fs[i].ty == StringTy && ValidateName(PointName(fs[i])))
  }

  /** The instant the generated code sets: the last time field's, or `now` without one. */
  function TimeOf(fs: seq<FieldInfo>, values: seq<Val>, n: nat, now: int): int
    requires n <= |fs| && Convertible(fs, values)
  {
    if n == 0 then now
    else if Assigned(fs[n - 1], Time) then values[n - 1].nanos
    else TimeOf(fs, values, n - 1, now)
  }

  /** The entry `set_tag` stores for the tag field at `i`. */
  function TagEntry(fs: seq<FieldInfo>, values: seq<Val>, i: nat): (e: (TagName, string))
    requires i < |fs| && Convertible(fs, values) && Assigned(fs[i], Tag)
    ensures e.0.text == PointName(fs[i])
  {
    (TagNameText(PointName(fs[i])), values[i].s)
  }

  /** The tag map the first `n` fields build, one `set_tag` after another. */
  function TagMapOf(fs: seq<FieldInfo>, values: seq<Val>, n: nat): TagMap
    requires n <= |fs| && Convertible(fs, values)
  {
    if n == 0 then map[]
    else if Assigned(fs[n - 1], Tag) then
      var e := TagEntry(fs, values, n - 1);
      TagMapOf(fs, values, n - 1)[e.0 := e.1]
    else TagMapOf(fs, values, n - 1)
  }

  /** `#(#tag_assignments)*`: `set_tag` for the tag fields among the first `n`. */
  function ApplyTags(p: Point, fs: seq<FieldInfo>, values: seq<Val>, n: nat): (r: Point)
    requires n <= |fs| && Convertible(fs, values)
    ensures r.tags == p.tags + TagMapOf(fs, values, n)
    ensures r.measurement == p.measurement && r.fields == p.fields && r.time == p.time
  {
    if n == 0 then p
    else
      var q := ApplyTags(p, fs, values, n - 1);
      if Assigned(fs[n - 1], Tag) then
        var e := TagEntry(fs, values, n - 1);
        UpdateUnion(p.tags, TagMapOf(fs, values, n - 1), e.0, e.1);
        q.(tags := q.tags[e.0 := e.1])
      else
        q
  }

  /** The field map the first `n` fields build, one `set_field` after another; invalid names are skipped. */
  function FieldMapOf(fs: seq<FieldInfo>, values: seq<Val>, n: nat): map<string, PointValue>
    requires n <= |fs| && Fits(fs, values)
  {
    if n == 0 then map[]
    else if Assigned(fs[n - 1], Field) && ValidateName(PointName(fs[n - 1])) then
      FieldMapOf(fs, values, n - 1)[PointName(fs[n - 1]) := Encode(fs[n - 1].ty, values[n - 1])]
    else FieldMapOf(fs, values, n - 1)
  }

  /** `#(#field_assignments)*`: `set_field` for the plain fields among the first `n`. */
  function ApplyFields(p: Point, fs: seq<FieldInfo>, values: seq<Val>, n: nat): (r: Point)
    requires n <= |fs| && Fits(fs, values)
    ensures r.fields == p.fields + FieldMapOf(fs, values, n)
    ensures r.measurement == p.measurement && r.tags == p.tags && r.time == p.time
  {
    if n == 0 then p
    else
      var q := ApplyFields(p, fs, values, n - 1);
      if Assigned(fs[n - 1], Field) && ValidateName(PointName(fs[n - 1])) then
        var k := PointName(fs[n - 1]);
        var v := Encode(fs[n - 1].ty, values[n - 1]);
        UpdateUnion(p.fields, FieldMapOf(fs, values, n - 1), k, v);
        q.(fields := q.fields[k := v])
      else
        q
  }

  /** Updating a union updates its right-hand side. */
  lemma UpdateUnion<K, V>(a: map<K, V>, b: map<K, V>, k: K, v: V)
    ensures (a + b)[k := v] == a + b[k := v]
  {
  }

  /**
   The generated `to_point(self)`; `now` stands for `Utc::now()`. The
   resulting point's maps are what collecting the tag and field entries in
   declaration order gives, so a later duplicate key wins.
   */
  function ToPoint(info: StructInfo, values: seq<Val>, now: int): (p: Point)
    requires Convertible(info.fields, values)
    ensures p.measurement == info.measurement
    ensures p.time == TimeOf(info.fields, values, |info.fields|, now)
    ensures p.tags == TagMapOf(info.fields, values, |info.fields|)
    ensures p.fields == FieldMapOf(info.fields, values, |info.fields|)
  {
    var fs := info.fields;
    var p0 := NewWithMeasurement(info.measurement, now);
    var p1 := SetTimestamp(p0, TimeOf(fs, values, |fs|, now));
    assert map[] + TagMapOf(fs, values, |fs|) == TagMapOf(fs, values, |fs|);
    assert map[] + FieldMapOf(fs, values, |fs|) == FieldMapOf(fs, values, |fs|);
    ApplyFields(ApplyTags(p1, fs, values, |fs|), fs, values, |fs|)
  }

  // ---- Properties --------------------------------------------------------

  /** The value a tag field is stored under, when no later tag field reuses its key. */
  lemma {:induction false} TagMapLast(fs: seq<FieldInfo>, values: seq<Val>, n: nat, i: nat)
    requires n <= |fs| && Convertible(fs, values)
    requires i < n && Assigned(fs[i], Tag)
    requires forall j :: i < j < n && Assigned(fs[j], Tag) ==> PointName(fs[j]) != PointName(fs[i])
    ensures var m := TagMapOf(fs, values, n);
      TagEntry(fs, values, i).0 in m && m[TagEntry(fs, values, i).0] == values[i].s
  {
    if i < n - 1 {
      TagMapLast(fs, values, n - 1, i);
      if Assigned(fs[n - 1], Tag) {
        assert TagEntry(fs, values, n - 1).0.text != TagEntry(fs, values, i).0.text;
      }
    }
  }

  /** The value a plain field is stored under, when its name is valid and no later field reuses it. */
  lemma {:induction false} FieldMapLast(fs: seq<FieldInfo>, values: seq<Val>, n: nat, i: nat)
    requires n <= |fs| && Fits(fs, values)
    requires i < n && Assigned(fs[i], Field) && ValidateName(PointName(fs[i]))
    requires forall j :: i < j < n && Assigned(fs[j], Field) ==> PointName(fs[j]) != PointName(fs[i])
    ensures var m := FieldMapOf(fs, values, n);
      PointName(fs[i]) in m && m[PointName(fs[i])] == Encode(fs[i].ty, values[i])
  {
    if i < n - 1 {
      FieldMapLast(fs, values, n - 1, i);
    }
  }

  /** The instant of the time field, when the struct has one that is not ignored. */
  lemma {:induction false} TimeOfField(fs: seq<FieldInfo>, values: seq<Val>, n: nat, now: int, i: nat)
    requires n <= |fs| && Convertible(fs, values)
    requires i < n && Assigned(fs[i], Time)
    requires forall j :: i < j < n ==> !Assigned(fs[j], Time)
    ensures TimeOf(fs, values, n, now) == values[i].nanos
  {
    if i < n - 1 {
      TimeOfField(fs, values, n - 1, now, i);
    }
  }

  /** Without a time field the point carries `now`. */
  lemma {:induction false} TimeOfNone(fs: seq<FieldInfo>, values: seq<Val>, n: nat, now: int)
    requires n <= |fs| && Convertible(fs, values)
    requires forall j :: 0 <= j < n ==> !Assigned(fs[j], Time)
    ensures TimeOf(fs, values, n, now) == now
  {
    if n > 0 {
      TimeOfNone(fs, values, n - 1, now);
    }
  }

  /** The values of ignored fields are never read: changing them does not change the point. */
  lemma IgnoredNotRead(info: StructInfo, values: seq<Val>, values': seq<Val>, now: int)
    requires Convertible(info.fields, values) && Convertible(info.fields, values')
    requires forall i :: 0 <= i < |info.fields| && !info.fields[i].ignore ==> values[i] == values'[i]
    ensures ToPoint(info, values, now) == ToPoint(info, values', now)
  {
    IgnoredNotReadUpTo(info, values, values', now, |info.fields|);
  }

  lemma {:induction false} IgnoredNotReadUpTo(info: StructInfo, values: seq<Val>, values': seq<Val>, now: int, n: nat)
    requires Convertible(info.fields, values) && Convertible(info.fields, values')
    requires forall i :: 0 <= i < |info.fields| && !info.fields[i].ignore ==> values[i] == values'[i]
    requires n <= |info.fields|
    ensures TimeOf(info.fields, values, n, now) == TimeOf(info.fields, values', n, now)
    ensures TagMapOf(info.fields, values, n) == TagMapOf(info.fields, values', n)
    ensures FieldMapOf(info.fields, values, n) == FieldMapOf(info.fields, values', n)
  {
    TimeNotReadUpTo(info.fields, values, values', now, n);
    TagsNotReadUpTo(info.fields, values, values', n);
    FieldsNotReadUpTo(info.fields, values, values', n);
  }

  lemma {:induction false} TimeNotReadUpTo(fs: seq<FieldInfo>, values: seq<Val>, values': seq<Val>, now: int, n: nat)
    requires Convertible(fs, values) && Convertible(fs, values')
    requires forall i :: 0 <= i < |fs| && !fs[i].ignore ==> values[i] == values'[i]
    requires n <= |fs|
    ensures TimeOf(fs, values, n, now) == TimeOf(fs, values', n, now)
  {
    if n > 0 {
      TimeNotReadUpTo(fs, values, values', now, n - 1);
    }
  }

  lemma {:induction false} TagsNotReadUpTo(fs: seq<FieldInfo>, values: seq<Val>, values': seq<Val>, n: nat)
    requires Convertible(fs, values) && Convertible(fs, values')
    requires forall i :: 0 <= i < |fs| && !fs[i].ignore ==> values[i] == values'[i]
    requires n <= |fs|
    ensures TagMapOf(fs, values, n) == TagMapOf(fs, values', n)
  {
    if n > 0 {
      TagsNotReadUpTo(fs, values, values', n - 1);
    }
  }

  lemma {:induction false} FieldsNotReadUpTo(fs: seq<FieldInfo>, values: seq<Val>, values': seq<Val>, n: nat)
    requires Convertible(fs, values) && Convertible(fs, values')
    requires forall i :: 0 <= i < |fs| && !fs[i].ignore ==> values[i] == values'[i]
    requires n <= |fs|
    ensures FieldMapOf(fs, values, n) == FieldMapOf(fs, values', n)
  {
    if n > 0 {
      FieldsNotReadUpTo(fs, values, values', n - 1);
    }
  }
}
