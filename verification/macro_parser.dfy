/**
 The attribute parser of the derive macros (`parser.rs`), over a plain-data
 description of the annotated item: its name, its attributes, and for a
 struct with named fields each field's identifier, Rust type and
 attributes. Token-level syntax is not modelled; an attribute item is a key,
 optionally followed by `=` and a literal.

 Each `#[influxdb(...)]` list is read by syn's `parse_nested_meta`: after
 the callback returns for an item, the next token must be a `,` or the end
 of the list. An `= literal` that the callback leaves unread is therefore an
 error, "expected `,`".
 */
module MacroParser {
  import opened Base
  import opened Codec
  import opened SnakeCase

  datatype Lit = StrLit(s: string) | OtherLit

  /** One item inside `#[influxdb(...)]`: a key, and the literal after its `=` (`None` for a bare key). */
  datatype Meta = Meta(key: string, value: Option<Lit>)

  datatype Attr = Attr(path: string, metas: seq<Meta>)

  /** A declared field; `tyText` is its type as `stringify!` prints the type tokens. */
  datatype FieldDecl = FieldDecl(ident: string, ty: Ty, tyText: string, attrs: seq<Attr>)

  datatype Fields = Named(decls: seq<FieldDecl>) | Unnamed | NoFields

  datatype Data = StructData(fields: Fields) | EnumData | UnionData

  datatype DeriveInput = DeriveInput(ident: string, attrs: seq<Attr>, data: Data)

  /** A `syn::Error`, reported at compile time. */
  datatype SynError = SynError(message: string)

  /** `FieldType`. */
  datatype FieldType = Time | Tag | Field

  /** `FieldInfo`: the field's identifier, role, rename, type and flags. */
  datatype FieldInfo = FieldInfo(
    fieldName: string, fieldType: FieldType, rename: Option<string>,
    ty: Ty, tyText: string, useDefault: bool, ignore: bool)

  /** The key a field is stored under in a point: its rename, else its identifier. */
  function PointName(fi: FieldInfo): string {
    if fi.rename.Some? then fi.rename.value else fi.fieldName
  }

  /** `StructInfo`. */
  datatype StructInfo = StructInfo(structName: string, measurement: string, fields: seq<FieldInfo>)

  const NotStruct: string := "FromPoint can only be derived for structs"
  const NotNamed: string := "ToPoint can only be derived for structs with named fields"
  const UnknownAttribute: string := "Unknown influxdb attribute"
  /** syn's error for a token left after an item, where a `,` must follow. */
  const ExpectedComma: string := "expected `,`"
  const IgnoredWithRole: string := "Ignored fields cannot be marked as tag or time"
  const MultipleTime: string :=
    "Only one field can be marked as time. Found multiple time fields (either named 'time' or marked with #[influxdb(time)])"

  /** The items of the `influxdb` attributes, in order; other attributes are skipped. */
  function InfluxdbMetas(attrs: seq<Attr>): seq<Meta> {
    if attrs == [] then []
    else (if attrs[0].path == "influxdb" then attrs[0].metas else []) + InfluxdbMetas(attrs[1..])
  }

  /** The string literal of `key = "..."`, if the item is that. */
  function StrValue(m: Meta, key: string): Option<string> {
    if m.key == key && m.value.Some? && m.value.value.StrLit? then Some(m.value.value.s) else None
  }

  /** The source's overwrite loop: each `key = "..."` item replaces what was found so far. */
  function FoldStr(metas: seq<Meta>, key: string, found: Option<string>): Option<string> {
    if metas == [] then found
    else FoldStr(metas[1..], key, if StrValue(metas[0], key).Some? then StrValue(metas[0], key) else found)
  }

  /** Reference: the string of the last `key = "..."` item, or `d` when there is none. */
  function LastStr(metas: seq<Meta>, key: string, d: Option<string>): Option<string> {
    if metas == [] then d
    else if StrValue(metas[|metas| - 1], key).Some? then StrValue(metas[|metas| - 1], key)
    else LastStr(metas[..|metas| - 1], key, d)
  }

  lemma {:induction false} FoldIsLast(metas: seq<Meta>, key: string, found: Option<string>)
    ensures FoldStr(metas, key, found) == LastStr(metas, key, found)
    decreases |metas|
  {
    if metas != [] {
      var next := if StrValue(metas[0], key).Some? then StrValue(metas[0], key) else found;
      FoldIsLast(metas[1..], key, next);
      LastStrCons(metas, key, found);
    }
  }

  /** Peeling the first item off the reference. */
  lemma {:induction false} LastStrCons(metas: seq<Meta>, key: string, d: Option<string>)
    requires metas != []
    ensures LastStr(metas, key, d)
         == LastStr(metas[1..], key, if StrValue(metas[0], key).Some? then StrValue(metas[0], key) else d)
    decreases |metas|
  {
    var next := if StrValue(metas[0], key).Some? then StrValue(metas[0], key) else d;
    if |metas| > 1 {
      var init := metas[..|metas| - 1];
      assert init[0] == metas[0];
      assert init[1..] == metas[1..][..|metas[1..]| - 1];
      LastStrCons(init, key, d);
    }
  }

  // ---- Struct level ---------------------------------------------------------

  /**
   A struct-level item leaves nothing unread: the callback reads the value of
   `measurement` only, so any other key must stand bare.
   */
  predicate StructItemsOk(metas: seq<Meta>) {
    forall i :: 0 <= i < |metas| ==> metas[i].key == "measurement" || metas[i].value.None?
  }

  /**
   `parse_struct`: only a struct is accepted; the measurement is the last
   `measurement = "..."` of its `influxdb` attributes, or the struct name in
   snake case. Other bare keys at this level are ignored; another key with a
   value stops the parse before the fields are read.
   */
  function ParseStruct(input: DeriveInput): (r: Result<StructInfo, SynError>)
    ensures !input.data.StructData? ==> r == Err(SynError(NotStruct))
    ensures input.data.StructData? && !StructItemsOk(InfluxdbMetas(input.attrs)) ==> r == Err(SynError(ExpectedComma))
    ensures input.data.StructData? && StructItemsOk(InfluxdbMetas(input.attrs)) && !input.data.fields.Named? ==>
      r == Err(SynError(NotNamed))
    ensures input.data.StructData? && StructItemsOk(InfluxdbMetas(input.attrs)) && input.data.fields.Named? ==>
      (r.Ok? <==> ParseFields(input.data.fields.decls, 0).Ok?)
      && (r.Err? ==> r == Err(ParseFields(input.data.fields.decls, 0).error))
    ensures r.Ok? ==> r.value.structName == input.ident && StructItemsOk(InfluxdbMetas(input.attrs))
  {
    if !input.data.StructData? then Err(SynError(NotStruct))
    else if !StructItemsOk(InfluxdbMetas(input.attrs)) then Err(SynError(ExpectedComma))
    else
      var named := FoldStr(InfluxdbMetas(input.attrs), "measurement", None);
      match ParseFieldsOf(input.data.fields)
      case Err(e) => Err(e)
      case Ok(fs) => Ok(StructInfo(input.ident, if named.Some? then named.value else Snake(input.ident), fs))
  }

  /** `parse_fields`: only named fields are accepted. */
  function ParseFieldsOf(fields: Fields): Result<seq<FieldInfo>, SynError> {
    if !fields.Named? then Err(SynError(NotNamed)) else ParseFields(fields.decls, 0)
  }

  /** The measurement a successful parse records: an explicit name wins over the struct name. */
  lemma ParseStructMeasurement(input: DeriveInput)
    requires ParseStruct(input).Ok?
    ensures var named := LastStr(InfluxdbMetas(input.attrs), "measurement", None);
      ParseStruct(input).value.measurement == (if named.Some? then named.value else Snake(input.ident))
    ensures ParseStruct(input).value.fields == ParseFields(input.data.fields.decls, 0).value
  {
    FoldIsLast(InfluxdbMetas(input.attrs), "measurement", None);
  }

  // ---- Field level ----------------------------------------------------------

  /** What the attribute loop of one field has collected. */
  datatype AttrState = AttrState(
    isTime: bool, isTag: bool, rename: Option<string>,
    useDefault: bool, ignore: bool, timeCount: nat)

  /**
   One attribute item; an unknown key is an error. A `rename` without a string
   literal changes nothing. The flag keys do not read a value, so one given to
   them is the error syn reports at the token after the key.
   */
  function ApplyMeta(st: AttrState, m: Meta): (r: Result<AttrState, SynError>)
    ensures r.Ok? <==> ItemOk(m)
    ensures r.Err? ==> r.error == SynError(ItemError(m))
  {
    if m.key == "time" then Bare(m, st.(isTime := true, timeCount := st.timeCount + 1))
    else if m.key == "tag" then Bare(m, st.(isTag := true))
    else if m.key == "rename" then Ok(if StrValue(m, "rename").Some? then st.(rename := StrValue(m, "rename")) else st)
    else if m.key == "default" then Bare(m, st.(useDefault := true))
    else if m.key == "ignore" then Bare(m, st.(ignore := true))
    else Err(SynError(UnknownAttribute))
  }

  /** The callback returned `st` without reading a value: fine only if the item has none. */
  function Bare(m: Meta, st: AttrState): Result<AttrState, SynError> {
    if m.value.Some? then Err(SynError(ExpectedComma)) else Ok(st)
  }

  function ApplyMetas(st: AttrState, metas: seq<Meta>): Result<AttrState, SynError>
    decreases |metas|
  {
    if metas == [] then Ok(st)
    else
      match ApplyMeta(st, metas[0])
      case Err(e) => Err(e)
      case Ok(st') => ApplyMetas(st', metas[1..])
  }

  /**
   One field: a field named `time` counts as a time field; its attributes
   are read; `ignore` with `tag` or `time` is refused; the role is resolved;
   a time field reached with more than one time mark so far is refused.
   Returns the info and the updated count of time marks.
   */
  function ParseField(d: FieldDecl, count: nat): (r: Result<(FieldInfo, nat), SynError>)
    ensures r.Err? ==> FieldMessage(r.error)
    ensures r.Ok? ==> r.value.1 == count + Marks(d)
    ensures r.Ok? ==> r.value.0.fieldName == d.ident && r.value.0.ty == d.ty && r.value.0.tyText == d.tyText
    ensures r.Ok? ==> !(r.value.0.ignore && r.value.0.fieldType == Tag)
    ensures r.Ok? && r.value.0.fieldType == Time ==> r.value.1 <= 1
  {
    var count1 := count + (if d.ident == "time" then 1 else 0);
    var init := AttrState(false, false, None, false, false, count1);
    ApplyMetasOk(init, InfluxdbMetas(d.attrs));
    match ApplyMetas(init, InfluxdbMetas(d.attrs))
    case Err(e) => Err(e)
    case Ok(st) =>
      ApplyMetasValue(init, InfluxdbMetas(d.attrs));
      if st.ignore && (st.isTag || st.isTime) then Err(SynError(IgnoredWithRole))
      else
        var ft := if st.isTime then Time else if st.isTag then Tag else if d.ident == "time" then Time else Field;
        if ft == Time && st.timeCount > 1 then Err(SynError(MultipleTime))
        else Ok((FieldInfo(d.ident, ft, st.rename, d.ty, d.tyText, st.useDefault, st.ignore), st.timeCount))
  }

  /** The loop over the declared fields; the first error ends it. */
  function ParseFields(decls: seq<FieldDecl>, count: nat): (r: Result<seq<FieldInfo>, SynError>)
    ensures r.Err? ==> FieldMessage(r.error)
    ensures r.Ok? ==> |r.value| == |decls|
    ensures r.Ok? ==> forall i :: 0 <= i < |decls| ==> r.value[i].fieldName == decls[i].ident && r.value[i].ty == decls[i].ty
  {
    if decls == [] then Ok([])
    else
      match ParseField(decls[0], count)
      case Err(e) => Err(e)
      case Ok((info, count')) =>
        match ParseFields(decls[1..], count')
        case Err(e) => Err(e)
        case Ok(rest) => Ok([info] + rest)
  }

  // ---- Reference ------------------------------------------------------------

  /** The messages the field loop can stop with. */
  predicate FieldMessage(e: SynError) {
    e.message == UnknownAttribute || e.message == ExpectedComma
    || e.message == IgnoredWithRole || e.message == MultipleTime
  }

  predicate HasKey(metas: seq<Meta>, key: string) {
    exists i :: 0 <= i < |metas| && metas[i].key == key
  }

  function CountKey(metas: seq<Meta>, key: string): nat {
    if metas == [] then 0 else (if metas[0].key == key then 1 else 0) + CountKey(metas[1..], key)
  }

  predicate KnownKey(k: string) {
    k == "time" || k == "tag" || k == "rename" || k == "default" || k == "ignore"
  }

  /** An item the field-level parse accepts: a known key, and a value only after `rename`. */
  predicate ItemOk(m: Meta) {
    KnownKey(m.key) && (m.key == "rename" || m.value.None?)
  }

  /** The error a refused item ends the parse with. */
  function ItemError(m: Meta): string {
    if KnownKey(m.key) then ExpectedComma else UnknownAttribute
  }

  predicate AllItemsOk(metas: seq<Meta>) {
    forall i :: 0 <= i < |metas| ==> ItemOk(metas[i])
  }

  function Metas(d: FieldDecl): seq<Meta> {
    InfluxdbMetas(d.attrs)
  }

  /** The field's time marks: its name being `time`, and each `time` item. */
  function Marks(d: FieldDecl): nat {
    (if d.ident == "time" then 1 else 0) + CountKey(Metas(d), "time")
  }

  function SumMarks(ds: seq<FieldDecl>): nat {
    if ds == [] then 0 else Marks(ds[0]) + SumMarks(ds[1..])
  }

  /** Role resolution: a `time` item, else a `tag` item, else the name `time`, else a plain field. */
  function Role(d: FieldDecl): FieldType {
    if HasKey(Metas(d), "time") then Time
    else if HasKey(Metas(d), "tag") then Tag
    else if d.ident == "time" then Time
    else Field
  }

  /** The info a field yields when the parse accepts it. */
  function InfoOf(d: FieldDecl): FieldInfo {
    FieldInfo(d.ident, Role(d), LastStr(Metas(d), "rename", None), d.ty, d.tyText,
              HasKey(Metas(d), "default"), HasKey(Metas(d), "ignore"))
  }

  /**
   The field at `i` is accepted: only known keys, with a value only after
   `rename`; not `ignore` together with
   `tag` or `time`; and, if it is a time field, at most one time mark up to
   and including it (counting `count` marks before the first field).
   */
  predicate Accepted(decls: seq<FieldDecl>, i: nat, count: nat)
    requires i < |decls|
  {
    var d := decls[i];
    AllItemsOk(Metas(d))
    && !(HasKey(Metas(d), "ignore") && (HasKey(Metas(d), "tag") || HasKey(Metas(d), "time")))
    && (Role(d) == Time ==> count + SumMarks(decls[..i + 1]) <= 1)
  }

  /** The position of the first refused item, or `|metas|` when there is none. */
  function FirstBad(metas: seq<Meta>): (r: nat)
    ensures r <= |metas|
    ensures forall i :: 0 <= i < r ==> ItemOk(metas[i])
    ensures r < |metas| ==> !ItemOk(metas[r])
    decreases |metas|
  {
    if metas == [] || !ItemOk(metas[0]) then 0 else 1 + FirstBad(metas[1..])
  }

  /**
   The attribute loop fails exactly when some item is refused, and then with
   the error of the first refused item.
   */
  lemma {:induction false} ApplyMetasOk(st: AttrState, metas: seq<Meta>)
    ensures ApplyMetas(st, metas).Ok? <==> AllItemsOk(metas)
    ensures ApplyMetas(st, metas).Err? ==>
      FirstBad(metas) < |metas| && ApplyMetas(st, metas).error == SynError(ItemError(metas[FirstBad(metas)]))
    decreases |metas|
  {
    if metas != [] {
      var tail := metas[1..];
      assert forall i :: 0 <= i < |tail| ==> tail[i] == metas[i + 1];
      if ApplyMeta(st, metas[0]).Ok? {
        assert ItemOk(metas[0]);
        ApplyMetasOk(ApplyMeta(st, metas[0]).value, tail);
        assert FirstBad(metas) == 1 + FirstBad(tail);
      } else {
        assert !ItemOk(metas[0]) && FirstBad(metas) == 0;
      }
    }
  }

  /** What the attribute loop collects, against the reference. */
  lemma {:induction false} ApplyMetasValue(st: AttrState, metas: seq<Meta>)
    requires ApplyMetas(st, metas).Ok?
    ensures ApplyMetas(st, metas).value == AttrState(
        st.isTime || HasKey(metas, "time"), st.isTag || HasKey(metas, "tag"),
        FoldStr(metas, "rename", st.rename),
        st.useDefault || HasKey(metas, "default"), st.ignore || HasKey(metas, "ignore"),
        st.timeCount + CountKey(metas, "time"))
    decreases |metas|
  {
    if metas != [] {
      var st' := ApplyMeta(st, metas[0]).value;
      ApplyMetaValue(st, metas[0]);
      ApplyMetasValue(st', metas[1..]);
      HasKeyCons(metas, "time");
      HasKeyCons(metas, "tag");
      HasKeyCons(metas, "default");
      HasKeyCons(metas, "ignore");
    }
  }

  /** One accepted item sets its own flag, counts a `time` mark, and takes a `rename` string. */
  lemma ApplyMetaValue(st: AttrState, m: Meta)
    requires ApplyMeta(st, m).Ok?
    ensures ApplyMeta(st, m).value == AttrState(
        st.isTime || m.key == "time", st.isTag || m.key == "tag",
        if StrValue(m, "rename").Some? then StrValue(m, "rename") else st.rename,
        st.useDefault || m.key == "default", st.ignore || m.key == "ignore",
        st.timeCount + (if m.key == "time" then 1 else 0))
  {
  }

  lemma HasKeyCons(metas: seq<Meta>, key: string)
    requires metas != []
    ensures HasKey(metas, key) <==> metas[0].key == key || HasKey(metas[1..], key)
  {
    if HasKey(metas, key) && metas[0].key != key {
      var i :| 0 <= i < |metas| && metas[i].key == key;
      assert metas[1..][i - 1].key == key;
    }
    if HasKey(metas[1..], key) {
      var i :| 0 <= i < |metas[1..]| && metas[1..][i].key == key;
      assert metas[i + 1].key == key;
    }
  }

  lemma CountKeyPositive(metas: seq<Meta>, key: string)
    requires HasKey(metas, key)
    ensures CountKey(metas, key) >= 1
    decreases |metas|
  {
    HasKeyCons(metas, key);
    if metas[0].key != key {
      CountKeyPositive(metas[1..], key);
    }
  }

  /** One field against the reference. */
  lemma ParseFieldSpec(d: FieldDecl, count: nat)
    ensures ParseField(d, count).Ok? <==> Accepted([d], 0, count)
    ensures ParseField(d, count).Ok? ==> ParseField(d, count).value == (InfoOf(d), count + Marks(d))
  {
    ParseFieldAccepts(d, count);
    if ParseField(d, count).Ok? {
      ParseFieldValue(d, count);
    }
  }

  lemma ParseFieldAccepts(d: FieldDecl, count: nat)
    ensures ParseField(d, count).Ok? <==> Accepted([d], 0, count)
  {
    var count1 := count + (if d.ident == "time" then 1 else 0);
    var init := AttrState(false, false, None, false, false, count1);
    ApplyMetasOk(init, Metas(d));
    if ApplyMetas(init, Metas(d)).Ok? {
      ApplyMetasValue(init, Metas(d));
    }
    AcceptedSingle(d, count);
  }

  lemma ParseFieldValue(d: FieldDecl, count: nat)
    requires ParseField(d, count).Ok?
    ensures ParseField(d, count).value == (InfoOf(d), count + Marks(d))
  {
    var count1 := count + (if d.ident == "time" then 1 else 0);
    var init := AttrState(false, false, None, false, false, count1);
    var st := ApplyMetas(init, Metas(d)).value;
    var ft := if st.isTime then Time else if st.isTag then Tag else if d.ident == "time" then Time else Field;
    assert ParseField(d, count).value == (FieldInfo(d.ident, ft, st.rename, d.ty, d.tyText, st.useDefault, st.ignore), st.timeCount);
    ApplyMetasValue(init, Metas(d));
    FoldIsLast(Metas(d), "rename", None);
    assert ft == Role(d);
  }

  /** A field on its own is accepted under the field-local conditions. */
  lemma AcceptedSingle(d: FieldDecl, count: nat)
    ensures Accepted([d], 0, count) <==>
      AllItemsOk(Metas(d))
      && !(HasKey(Metas(d), "ignore") && (HasKey(Metas(d), "tag") || HasKey(Metas(d), "time")))
      && (Role(d) == Time ==> count + Marks(d) <= 1)
  {
    assert [d][..1] == [d];
    assert SumMarks([d]) == Marks(d) by {
      assert [d][1..] == [];
    }
  }

  /** Marks of a prefix, peeled at the front. */
  lemma SumMarksPrefix(decls: seq<FieldDecl>, i: nat)
    requires 0 < i < |decls|
    ensures SumMarks(decls[..i + 1]) == Marks(decls[0]) + SumMarks(decls[1..][..i])
  {
    assert decls[..i + 1][0] == decls[0];
    assert decls[..i + 1][1..] == decls[1..][..i];
  }

  /** Every field of the list is accepted. */
  predicate AllAccepted(decls: seq<FieldDecl>, count: nat) {
    forall i :: 0 <= i < |decls| ==> Accepted(decls, i, count)
  }

  /** One info per declared field, in declaration order. */
  predicate InfosOf(infos: seq<FieldInfo>, decls: seq<FieldDecl>) {
    |infos| == |decls| && forall i :: 0 <= i < |decls| ==> infos[i] == InfoOf(decls[i])
  }

  /**
   `parse_fields` accepts exactly when every field is accepted, and then
   yields one info per declared field, in declaration order.
   */
  lemma {:induction false} ParseFieldsSpec(decls: seq<FieldDecl>, count: nat)
    ensures ParseFields(decls, count).Ok? <==> AllAccepted(decls, count)
    ensures ParseFields(decls, count).Ok? ==> InfosOf(ParseFields(decls, count).value, decls)
    decreases |decls|
  {
    if decls != [] {
      var d := decls[0];
      var tail := decls[1..];
      var c2 := count + Marks(d);
      ParseFieldSpec(d, count);
      ParseFieldsSpec(tail, c2);
      AllAcceptedCons(decls, count, tail, c2);
      if ParseFields(decls, count).Ok? {
        InfosOfCons(decls, tail, ParseFields(tail, c2).value);
      }
    }
  }

  /** The list is accepted when its head is accepted alone and its tail after the head's marks. */
  lemma AllAcceptedCons(decls: seq<FieldDecl>, count: nat, tail: seq<FieldDecl>, c2: nat)
    requires decls != [] && tail == decls[1..] && c2 == count + Marks(decls[0])
    ensures AllAccepted(decls, count) <==> Accepted([decls[0]], 0, count) && AllAccepted(tail, c2)
  {
    AcceptedShift(decls, tail, count, c2);
    if Accepted([decls[0]], 0, count) && AllAccepted(tail, c2) {
      forall i | 0 < i < |decls| ensures Accepted(decls, i, count) {
        assert Accepted(tail, i - 1, c2);
      }
    }
    if AllAccepted(decls, count) {
      assert Accepted(decls, 0, count);
      forall i | 0 <= i < |tail| ensures Accepted(tail, i, c2) {
        assert Accepted(decls, i + 1, count);
      }
    }
  }

  lemma InfosOfCons(decls: seq<FieldDecl>, tail: seq<FieldDecl>, rest: seq<FieldInfo>)
    requires decls != [] && tail == decls[1..] && InfosOf(rest, tail)
    ensures InfosOf([InfoOf(decls[0])] + rest, decls)
  {
  }

  /** Acceptance of a field is the same seen from the whole list or from the list without its head. */
  lemma AcceptedShift(decls: seq<FieldDecl>, tail: seq<FieldDecl>, count: nat, c2: nat)
    requires decls != [] && tail == decls[1..] && c2 == count + Marks(decls[0])
    ensures Accepted([decls[0]], 0, count) <==> Accepted(decls, 0, count)
    ensures forall i :: 0 < i < |decls| ==> (Accepted(decls, i, count) <==> Accepted(tail, i - 1, c2))
  {
    assert [decls[0]][..1] == decls[..1];
    forall i | 0 < i < |decls|
      ensures Accepted(decls, i, count) <==> Accepted(tail, i - 1, c2)
    {
      SumMarksPrefix(decls, i);
      assert tail[i - 1] == decls[i];
    }
  }

  /** A time field carries at least one time mark. */
  lemma TimeHasMark(d: FieldDecl)
    requires Role(d) == Time
    ensures Marks(d) >= 1
  {
    if HasKey(Metas(d), "time") {
      CountKeyPositive(Metas(d), "time");
    }
  }

  lemma {:induction false} SumMarksBound(ds: seq<FieldDecl>, i: nat, j: nat)
    requires i < j < |ds|
    ensures SumMarks(ds) >= Marks(ds[i]) + Marks(ds[j])
    decreases |ds|
  {
    if i == 0 {
      SumMarksAtLeast(ds[1..], j - 1);
    } else {
      SumMarksBound(ds[1..], i - 1, j - 1);
    }
  }

  lemma {:induction false} SumMarksAtLeast(ds: seq<FieldDecl>, j: nat)
    requires j < |ds|
    ensures SumMarks(ds) >= Marks(ds[j])
    decreases |ds|
  {
    if j > 0 {
      SumMarksAtLeast(ds[1..], j - 1);
    }
  }

  /** A successful parse has at most one field in the time role. */
  lemma AtMostOneTime(decls: seq<FieldDecl>)
    requires ParseFields(decls, 0).Ok?
    ensures var infos := ParseFields(decls, 0).value;
      forall i, j :: 0 <= i < j < |infos| ==> !(infos[i].fieldType == Time && infos[j].fieldType == Time)
  {
    ParseFieldsSpec(decls, 0);
    forall i, j | 0 <= i < j < |decls| && Role(decls[i]) == Time
      ensures Role(decls[j]) != Time
    {
      if Role(decls[j]) == Time {
        assert Accepted(decls, j, 0);
        TimeHasMark(decls[i]);
        TimeHasMark(decls[j]);
        var pre := decls[..j + 1];
        assert pre[i] == decls[i] && pre[j] == decls[j];
        SumMarksBound(pre, i, j);
        assert false;
      }
    }
  }

  /**
   A field named `time` but marked `tag` is a tag, yet its name still counts
   as a time mark: followed by a field marked `time`, the parse fails.
   */
  lemma TagNamedTimeStillCounts()
    ensures var tagged := FieldDecl("time", StringTy, "String", [Attr("influxdb", [Meta("tag", None)])]);
      var stamp := FieldDecl("at", DateTimeTy, "DateTime<Utc>", [Attr("influxdb", [Meta("time", None)])]);
      Role(tagged) == Tag
      && ParseFields([tagged, stamp], 0) == Err(SynError(MultipleTime))
  {
    var tagged := FieldDecl("time", StringTy, "String", [Attr("influxdb", [Meta("tag", None)])]);
    var stamp := FieldDecl("at", DateTimeTy, "DateTime<Utc>", [Attr("influxdb", [Meta("time", None)])]);
    assert Metas(tagged) == [Meta("tag", None)];
    assert Metas(stamp) == [Meta("time", None)];
    assert Metas(tagged)[0].key == "tag";
    assert !HasKey(Metas(tagged), "time");
    assert [tagged, stamp][1..] == [stamp];
  }

  /** `#[influxdb(tag = "yes")]`: the flag leaves its value unread, and the parse stops at the `=`. */
  lemma FlagWithValueRefused()
    ensures ParseField(FieldDecl("host", StringTy, "String", [Attr("influxdb", [Meta("tag", Some(StrLit("yes")))])]), 0)
         == Err(SynError(ExpectedComma))
  {
    var d := FieldDecl("host", StringTy, "String", [Attr("influxdb", [Meta("tag", Some(StrLit("yes")))])]);
    assert Metas(d) == [Meta("tag", Some(StrLit("yes")))];
  }

  /**
   At struct level an unknown bare key is ignored, but an unknown key with a
   value is refused before the fields are looked at.
   */
  lemma StructLevelItems()
    ensures ParseStruct(DeriveInput("Cpu", [Attr("influxdb", [Meta("name", None)])], StructData(Named([])))).Ok?
    ensures ParseStruct(DeriveInput("Cpu", [Attr("influxdb", [Meta("name", Some(StrLit("cpu")))])], StructData(Unnamed)))
         == Err(SynError(ExpectedComma))
  {
    assert InfluxdbMetas([Attr("influxdb", [Meta("name", None)])]) == [Meta("name", None)];
    assert StructItemsOk([Meta("name", None)]);
    assert ParseFields([], 0) == Ok([]);
    var valued := [Meta("name", Some(StrLit("cpu")))];
    assert InfluxdbMetas([Attr("influxdb", valued)]) == valued;
    assert valued[0].key != "measurement" && valued[0].value.Some?;
  }
}
