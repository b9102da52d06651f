/**
 `Point::serialize`: one line of the InfluxDB line protocol,
 `measurement[,k=v...] f=v[,f=v...] ts\n`, appended to a byte buffer.

 The tag and field maps are hash maps, so the order in which the source
 visits them is not fixed; the model takes that order as explicit entry
 sequences (`Enumerates`) and proves nothing that depends on it.
 */
module LineProtocol {
  import opened Base
  import opened Decimal
  import opened Names
  import opened TagNames
  import opened PointValues
  import opened Options
  import opened Points

  /** `,key=value` for one tag. Neither part is escaped. */
  function TagPair(e: (TagName, string)): string {
    "," + e.0.text + "=" + e.1
  }

  /** The tags of an enumeration, each introduced by a comma. */
  function TagSection(es: seq<(TagName, string)>): string {
    if es == [] then [] else TagSection(es[..|es| - 1]) + TagPair(es[|es| - 1])
  }

  predicate AllRenderable(es: seq<(string, PointValue)>) {
    forall i :: 0 <= i < |es| ==> Renderable(es[i].1)
  }

  lemma PrefixRenderable(es: seq<(string, PointValue)>, n: nat)
    requires n <= |es| && AllRenderable(es)
    ensures AllRenderable(es[..n])
  {
  }

  /** `key=value` for one field, the value in its line-protocol text. */
  function FieldPair(e: (string, PointValue), ft: FloatText): string
    requires Renderable(e.1)
  {
    e.0 + "=" + Render(e.1, ft)
  }

  /** The fields of an enumeration, separated by commas. */
  function FieldSection(es: seq<(string, PointValue)>, ft: FloatText): string
    requires AllRenderable(es)
  {
    if es == [] then []
    else if |es| == 1 then FieldPair(es[0], ft)
    else FieldSection(es[..|es| - 1], ft) + "," + FieldPair(es[|es| - 1], ft)
  }

  /** What `serialize` needs so as not to panic: every instant it prints fits `i64` nanoseconds. */
  predicate Serializable(p: Point, precision: TimestampPrecision) {
    (forall k :: k in p.fields ==> Renderable(p.fields[k]))
    && (precision.Nanoseconds? ==> InI64(p.time))
  }

  /** The text of the line: the reference the byte-level serializer is checked against. */
  function LineText(
    p: Point, precision: TimestampPrecision,
    defaultEs: seq<(TagName, string)>, tagEs: seq<(TagName, string)>,
    fieldEs: seq<(string, PointValue)>, ft: FloatText): string
    requires AllRenderable(fieldEs)
    requires precision.Nanoseconds? ==> InI64(p.time)
  {
    p.measurement + TagSection(defaultEs) + TagSection(tagEs)
    + " " + FieldSection(fieldEs, ft)
    + " " + IntText(ProcessTimestamp(precision, p.time)) + "\n"
  }

  lemma EnumeratedRenderable(p: Point, fieldEs: seq<(string, PointValue)>)
    requires Enumerates(fieldEs, p.fields)
    requires forall k :: k in p.fields ==> Renderable(p.fields[k])
    ensures AllRenderable(fieldEs)
  {
    forall i | 0 <= i < |fieldEs| ensures Renderable(fieldEs[i].1) {
      CollectMapLast(fieldEs, i);
    }
  }

  /**
   `serialize`: appends the bytes of the line to `buf`, visiting the default
   tags, the point's own tags and its fields in the given enumeration order.
   */
  method Serialize(
    buf: seq<byte>, p: Point, precision: TimestampPrecision,
    defaultTags: TagMap, defaultEs: seq<(TagName, string)>,
    tagEs: seq<(TagName, string)>, fieldEs: seq<(string, PointValue)>,
    ft: FloatText) returns (out: seq<byte>)
    requires Enumerates(defaultEs, defaultTags)
    requires Enumerates(tagEs, p.tags)
    requires Enumerates(fieldEs, p.fields)
    requires Serializable(p, precision)
    ensures AllRenderable(fieldEs)
    ensures out == buf + Utf8Encode(LineText(p, precision, defaultEs, tagEs, fieldEs, ft))
  {
    EnumeratedRenderable(p, fieldEs);
    ghost var text: string := [];
    assert buf + Utf8Encode(text) == buf;
    out, text := Extend(buf, buf, text, p.measurement);
    assert text == p.measurement;
    out := AppendTags(out, buf, text, defaultEs);
    text := text + TagSection(defaultEs);
    out := AppendTags(out, buf, text, tagEs);
    text := text + TagSection(tagEs);
    out, text := Push(out, buf, text, ' ');
    out := AppendFields(out, buf, text, fieldEs, ft);
    text := text + FieldSection(fieldEs, ft);
    out, text := Push(out, buf, text, ' ');
    out, text := Extend(out, buf, text, IntText(ProcessTimestamp(precision, p.time)));
    out, text := Push(out, buf, text, '\n');
  }

  /** The tag loop: `,key=value` for each entry, in order. */
  method AppendTags(out: seq<byte>, buf: seq<byte>, ghost prefix: string, es: seq<(TagName, string)>) returns (r: seq<byte>)
    requires out == buf + Utf8Encode(prefix)
    ensures r == buf + Utf8Encode(prefix + TagSection(es))
  {
    r := out;
    var i := 0;
    assert prefix + TagSection(es[..0]) == prefix;
    while i < |es|
      invariant i <= |es|
      invariant r == buf + Utf8Encode(prefix + TagSection(es[..i]))
    {
      r := AppendTag(r, buf, prefix + TagSection(es[..i]), es[i]);
      TagStepShape(prefix, es, i);
      i := i + 1;
    }
    assert es[..i] == es;
  }

  /** The field loop: `key=value` for each entry, a comma before all but the first. */
  method AppendFields(out: seq<byte>, buf: seq<byte>, ghost prefix: string, es: seq<(string, PointValue)>, ft: FloatText)
    returns (r: seq<byte>)
    requires AllRenderable(es)
    requires out == buf + Utf8Encode(prefix)
    ensures r == buf + Utf8Encode(prefix + FieldSection(es, ft))
  {
    r := out;
    var firstField := true;
    var i := 0;
    PrefixRenderable(es, 0);
    assert prefix + FieldSection(es[..0], ft) == prefix;
    while i < |es|
      invariant i <= |es|
      invariant firstField <==> i == 0
      invariant AllRenderable(es[..i])
      invariant r == buf + Utf8Encode(prefix + FieldSection(es[..i], ft))
    {
      PrefixRenderable(es, i + 1);
      r := AppendField(r, buf, prefix, es, i, !firstField, ft);
      firstField := false;
      i := i + 1;
    }
    FieldsDone(prefix, es, ft);
  }

  lemma FieldsDone(prefix: string, es: seq<(string, PointValue)>, ft: FloatText)
    requires AllRenderable(es)
    ensures prefix + FieldSection(es[..|es|], ft) == prefix + FieldSection(es, ft)
  {
    assert es[..|es|] == es;
  }

  /** One turn of the field loop: the comma unless it is the first field, then `key=value`. */
  method AppendField(out: seq<byte>, buf: seq<byte>, ghost prefix: string, es: seq<(string, PointValue)>, i: nat, comma: bool, ft: FloatText)
    returns (r: seq<byte>)
    requires i < |es| && AllRenderable(es) && (comma <==> i > 0)
    requires out == buf + Utf8Encode(prefix + FieldSection(es[..i], ft))
    ensures r == buf + Utf8Encode(prefix + FieldSection(es[..i + 1], ft))
  {
    ghost var text := prefix + FieldSection(es[..i], ft);
    r := out;
    if comma {
      r, text := Push(r, buf, text, ',');
    }
    r, text := Extend(r, buf, text, es[i].0);
    r, text := Push(r, buf, text, '=');
    r, text := Extend(r, buf, text, Render(es[i].1, ft));
    if comma {
      FieldStepNext(prefix, es, i, ft);
    } else {
      FieldStepFirst(prefix, es, ft);
    }
  }

  lemma TagStepShape(prefix: string, es: seq<(TagName, string)>, i: nat)
    requires i < |es|
    ensures prefix + TagSection(es[..i]) + TagPair(es[i]) == prefix + TagSection(es[..i + 1])
  {
    assert es[..i + 1][..i] == es[..i];
    assert es[..i + 1][i] == es[i];
  }

  lemma FieldStepFirst(prefix: string, es: seq<(string, PointValue)>, ft: FloatText)
    requires 0 < |es| && AllRenderable(es)
    ensures prefix + FieldSection(es[..0], ft) + es[0].0 + ['='] + Render(es[0].1, ft)
         == prefix + FieldSection(es[..1], ft)
  {
    FieldSectionStep(es, 0, ft);
    PairShape(prefix, [], es[0].0, Render(es[0].1, ft));
  }

  lemma FieldStepNext(prefix: string, es: seq<(string, PointValue)>, i: nat, ft: FloatText)
    requires 0 < i < |es| && AllRenderable(es)
    ensures prefix + FieldSection(es[..i], ft) + [','] + es[i].0 + ['='] + Render(es[i].1, ft)
         == prefix + FieldSection(es[..i + 1], ft)
  {
    FieldSectionStep(es, i, ft);
    Regroup(prefix, FieldSection(es[..i], ft), es[i].0, Render(es[i].1, ft), FieldSection(es[..i + 1], ft));
  }

  lemma Regroup(prefix: string, section: string, key: string, value: string, whole: string)
    requires whole == section + "," + (key + "=" + value)
    ensures prefix + section + [','] + key + ['='] + value == prefix + whole
  {
  }

  /** The field section grows by one pair, after a comma unless it was empty. */
  lemma FieldSectionStep(es: seq<(string, PointValue)>, i: nat, ft: FloatText)
    requires i < |es| && AllRenderable(es)
    ensures i == 0 ==> FieldSection(es[..i], ft) == []
    ensures FieldSection(es[..i + 1], ft)
         == (if i == 0 then [] else FieldSection(es[..i], ft) + ",") + FieldPair(es[i], ft)
  {
    assert es[..i + 1][..i] == es[..i];
    assert es[..i + 1][i] == es[i];
  }

  lemma PairShape(prefix: string, section: string, key: string, value: string)
    ensures prefix + section + key + ['='] + value == prefix + (section + (key + "=" + value))
  {
  }

  /** One tag's bytes, `,` key `=` value, as the loop pushes them. */
  method AppendTag(out: seq<byte>, buf: seq<byte>, ghost prefix: string, e: (TagName, string)) returns (r: seq<byte>)
    requires out == buf + Utf8Encode(prefix)
    ensures r == buf + Utf8Encode(prefix + TagPair(e))
  {
    ghost var text;
    r, text := Push(out, buf, prefix, ',');
    r, text := Extend(r, buf, text, e.0.text);
    r, text := Push(r, buf, text, '=');
    r, text := Extend(r, buf, text, e.1);
    TagPairShape(prefix, e);
  }

  lemma TagPairShape(prefix: string, e: (TagName, string))
    ensures prefix + [','] + e.0.text + ['='] + e.1 == prefix + TagPair(e)
  {
  }

  /** `buf.extend(piece.as_bytes())`, tracked against the text written so far. */
  method Extend(out: seq<byte>, buf: seq<byte>, ghost text: string, piece: string) returns (r: seq<byte>, ghost text': string)
    requires out == buf + Utf8Encode(text)
    ensures r == buf + Utf8Encode(text + piece)
    ensures text' == text + piece
  {
    r := out + Utf8Encode(piece);
    text' := text + piece;
    AppendBytes(buf, text, piece);
  }

  lemma AppendBytes(buf: seq<byte>, text: string, piece: string)
    ensures buf + Utf8Encode(text) + Utf8Encode(piece) == buf + Utf8Encode(text + piece)
  {
    Utf8EncodeAppend(text, piece);
  }

  /** `buf.push(b)` for an ASCII character, tracked against the text written so far. */
  method Push(out: seq<byte>, buf: seq<byte>, ghost text: string, c: char) returns (r: seq<byte>, ghost text': string)
    requires (c as int) < 0x80
    requires out == buf + Utf8Encode(text)
    ensures r == buf + Utf8Encode(text + [c])
    ensures text' == text + [c]
  {
    r := out + [c as int as byte];
    text' := text + [c];
    Utf8EncodeAppend(text, [c]);
    assert [c][..0] == [];
  }

  // ---- Properties --------------------------------------------------------

  /** Every line ends with a newline, so none is empty, and its bytes end with byte 0x0A. */
  lemma LineNonEmpty(
    p: Point, precision: TimestampPrecision,
    defaultEs: seq<(TagName, string)>, tagEs: seq<(TagName, string)>,
    fieldEs: seq<(string, PointValue)>, ft: FloatText)
    requires AllRenderable(fieldEs)
    requires precision.Nanoseconds? ==> InI64(p.time)
    ensures var line := LineText(p, precision, defaultEs, tagEs, fieldEs, ft);
      |line| > 0 && line[|line| - 1] == '\n'
    ensures var bytes := Utf8Encode(LineText(p, precision, defaultEs, tagEs, fieldEs, ft));
      |bytes| > 0 && bytes[|bytes| - 1] == 0x0A
  {
    var line := LineText(p, precision, defaultEs, tagEs, fieldEs, ft);
    var init := line[..|line| - 1];
    assert line == init + "\n";
    Utf8EncodeAppend(init, "\n");
    assert "\n"[..0] == [];
  }

  /** A point without fields still gets its line, with two spaces before the timestamp. */
  lemma NoFieldsTwoSpaces(
    p: Point, precision: TimestampPrecision,
    defaultEs: seq<(TagName, string)>, tagEs: seq<(TagName, string)>, ft: FloatText)
    requires precision.Nanoseconds? ==> InI64(p.time)
    ensures LineText(p, precision, defaultEs, tagEs, [], ft)
         == p.measurement + TagSection(defaultEs) + TagSection(tagEs) + "  "
            + IntText(ProcessTimestamp(precision, p.time)) + "\n"
  {
  }
}
