/**
 `PointValue`, the closed sum of everything a field can hold, and its
 line-protocol text. Floats are an opaque 64-bit payload whose decimal text
 is supplied from outside (`FloatText`); instants are integer nanoseconds
 since the Unix epoch, UTC.
 */
module PointValues {
  import opened Base
  import opened Decimal

  /** An `f64`, kept as its bit pattern. */
  datatype F64 = F64(bits: bv64)

  /**
   The platform's `f64` to-text conversion, which the model does not define
   beyond what Rust's `to_string` promises: the text of a float is never empty.
   */
  type FloatText = F64 -> NonEmptyText

  type NonEmptyText = s: string | |s| > 0 witness "0"

  datatype PointValue =
    | Null
    | Float(f: F64)
    | Integer(i: i64)
    | UInteger(u: u64)
    | Boolean(b: bool)
    | String(s: string)
    | Timestamp(nanos: int)

  /** A value whose text exists: a timestamp must fit `i64` nanoseconds, else the source panics. */
  predicate Renderable(v: PointValue) {
    v.Timestamp? ==> InI64(v.nanos)
  }

  /** `str::replace(c, rep)` for a one-character pattern. */
  function ReplaceChar(s: string, c: char, rep: string): (r: string)
    ensures c !in rep ==> c !in r
  {
    if s == [] then []
    else ReplaceChar(s[..|s| - 1], c, rep) + (if s[|s| - 1] == c then rep else [s[|s| - 1]])
  }

  /** The source's string escaping: backslashes doubled first, then quotes backslashed. */
  function Escape(s: string): string {
    ReplaceChar(ReplaceChar(s, '\\', "\\\\"), '"', "\\\"")
  }

  /** `serialize`: the text of a field value in line protocol. */
  function Render(v: PointValue, ft: FloatText): (r: string)
    requires Renderable(v)
    // The arms below only unfold `Render` for the serializer's proofs;
    // `RenderReadBack` is its specification.
    ensures v.Null? <==> r == []
    ensures v.Boolean? ==> r == (if v.b then "t" else "f")
    ensures v.Integer? ==> r == IntText(v.i) + "i"
    ensures v.UInteger? ==> r == IntText(v.u) + "u"
    ensures v.String? ==> r == "\"" + Escape(v.s) + "\""
  {
    match v
    case Null => ""
    case Float(f) => ft(f)
    case Integer(i) => IntText(i) + "i"
    case UInteger(u) => IntText(u) + "u"
    case Boolean(b) => if b then "t" else "f"
    case String(s) => "\"" + Escape(s) + "\""
    case Timestamp(t) => IntText(t)
  }

  // ---- The escaping, read back ------------------------------------------

  /** The escape of one character. */
  function EscapeOne(c: char): string {
    if c == '\\' then "\\\\" else if c == '"' then "\\\"" else [c]
  }

  /** Escaping character by character. */
  function EscapeEach(s: string): string {
    if s == [] then [] else EscapeEach(s[..|s| - 1]) + EscapeOne(s[|s| - 1])
  }

  /**
   Reads an escaped string body back: a backslash takes the next character
   literally, and a bare `"` (which would end the string) is refused.
   */
  function UnescapeFrom(t: string, i: nat): Option<string>
    requires i <= |t|
    decreases |t| - i
  {
    if i == |t| then Some([])
    else if t[i] == '\\' then
      if i + 1 == |t| then None
      else
        match UnescapeFrom(t, i + 2)
        case Some(rest) => Some([t[i + 1]] + rest)
        case None => None
    else if t[i] == '"' then None
    else
      match UnescapeFrom(t, i + 1)
      case Some(rest) => Some([t[i]] + rest)
      case None => None
  }

  lemma {:induction false} ReplaceCharAppend(a: string, b: string, c: char, rep: string)
    ensures ReplaceChar(a + b, c, rep) == ReplaceChar(a, c, rep) + ReplaceChar(b, c, rep)
    decreases |b|
  {
    if b == [] {
      assert a + b == a;
    } else {
      var b' := b[..|b| - 1];
      assert (a + b)[..|a + b| - 1] == a + b';
      ReplaceCharAppend(a, b', c, rep);
    }
  }

  lemma {:induction false} EscapeEachAppend(a: string, b: string)
    ensures EscapeEach(a + b) == EscapeEach(a) + EscapeEach(b)
    decreases |b|
  {
    if b == [] {
      assert a + b == a;
    } else {
      var b' := b[..|b| - 1];
      var last := b[|b| - 1];
      assert (a + b)[..|a + b| - 1] == a + b';
      assert (a + b)[|a + b| - 1] == last;
      EscapeEachAppend(a, b');
      AppendAssoc(EscapeEach(a), EscapeEach(b'), EscapeOne(last));
    }
  }

  lemma ReplaceSingle(c: char, d: char, rep: string)
    ensures ReplaceChar([c], d, rep) == (if c == d then rep else [c])
  {
    assert [c][..0] == [];
  }

  /** The two successive replacements escape every character independently. */
  lemma {:induction false} EscapeIsPerChar(s: string)
    ensures Escape(s) == EscapeEach(s)
  {
    if s != [] {
      var init := s[..|s| - 1];
      var c := s[|s| - 1];
      assert s == init + [c];
      EscapeIsPerChar(init);
      ReplaceCharAppend(init, [c], '\\', "\\\\");
      ReplaceSingle(c, '\\', "\\\\");
      ReplaceCharAppend(ReplaceChar(init, '\\', "\\\\"), if c == '\\' then "\\\\" else [c], '"', "\\\"");
      if c == '\\' {
        assert ReplaceChar("\\\\", '"', "\\\"") == "\\\\" by {
          assert "\\\\" == ['\\'] + ['\\'];
          ReplaceCharAppend(['\\'], ['\\'], '"', "\\\"");
          ReplaceSingle('\\', '"', "\\\"");
        }
      } else {
        ReplaceSingle(c, '"', "\\\"");
      }
      assert [c][..0] == [];
    }
  }

  lemma {:induction false} UnescapeFromEscapeEach(s: string, prefix: string)
    ensures UnescapeFrom(prefix + EscapeEach(s), |prefix|) == Some(s)
    decreases |s|
  {
    if s == [] {
      assert prefix + EscapeEach(s) == prefix;
    } else {
      var c := s[0];
      var rest := s[1..];
      EscapeEachCons(s, c, rest);
      UnescapeFromEscapeEach(rest, prefix + EscapeOne(c));
      UnescapeCons(prefix, EscapeOne(c), EscapeEach(rest), c, rest);
      assert [c] + rest == s;
    }
  }

  /** One escaped character read back, in front of text that reads back to `rest`. */
  lemma UnescapeCons(prefix: string, e: string, tail: string, c: char, rest: string)
    requires e == EscapeOne(c)
    requires UnescapeFrom(prefix + e + tail, |prefix + e|) == Some(rest)
    ensures UnescapeFrom(prefix + (e + tail), |prefix|) == Some([c] + rest)
  {
    var t := prefix + (e + tail);
    AppendAssoc(prefix, e, tail);
    PrefixOf(t, prefix + e, tail);
    EscapedAt(t, prefix, c, prefix + e);
    UnescapeStep(t, |prefix|, c, |prefix + e|, rest);
  }

  lemma EscapeEachCons(s: string, c: char, rest: string)
    requires s != [] && c == s[0] && rest == s[1..]
    ensures EscapeEach(s) == EscapeOne(c) + EscapeEach(rest)
  {
    assert s == [c] + rest;
    EscapeEachAppend([c], rest);
    EscapeEachSingle(c);
  }

  lemma EscapeEachSingle(c: char)
    ensures EscapeEach([c]) == EscapeOne(c)
  {
    assert [c][..0] == [];
  }

  lemma PrefixOf<T>(t: seq<T>, a: seq<T>, b: seq<T>)
    requires t == a + b
    ensures |a| <= |t| && t[..|a|] == a
  {
  }

  lemma AppendAssoc<T>(a: seq<T>, b: seq<T>, c: seq<T>)
    ensures a + (b + c) == (a + b) + c
  {
  }

  /** One escaped character read back, in front of text that reads back to `rest`. */
  lemma UnescapeStep(t: string, i: nat, c: char, j: nat, rest: string)
    requires i <= j <= |t| && UnescapeFrom(t, j) == Some(rest)
    requires c == '\\' || c == '"' ==> j == i + 2 && t[i] == '\\' && t[i + 1] == c
    requires c != '\\' && c != '"' ==> j == i + 1 && t[i] == c
    ensures UnescapeFrom(t, i) == Some([c] + rest)
  {
    if c == '\\' || c == '"' {
      UnescapeEscaped(t, i, rest);
    } else {
      UnescapePlain(t, i, rest);
    }
  }

  /** Where the escape of `c` sits in `t`, after `prefix`. */
  lemma EscapedAt(t: string, prefix: string, c: char, prefix': string)
    requires prefix' == prefix + EscapeOne(c) && |prefix'| <= |t| && t[..|prefix'|] == prefix'
    ensures c == '\\' || c == '"' ==>
      |prefix'| == |prefix| + 2 && t[|prefix|] == '\\' && t[|prefix| + 1] == c
    ensures c != '\\' && c != '"' ==> |prefix'| == |prefix| + 1 && t[|prefix|] == c
  {
    var i := |prefix|;
    if c == '\\' || c == '"' {
      assert t[i] == prefix'[i];
      assert t[i + 1] == prefix'[i + 1];
    } else {
      assert t[i] == prefix'[i];
    }
  }

  lemma UnescapeEscaped(t: string, i: nat, rest: string)
    requires i + 2 <= |t| && t[i] == '\\' && UnescapeFrom(t, i + 2) == Some(rest)
    ensures UnescapeFrom(t, i) == Some([t[i + 1]] + rest)
  {
  }

  lemma UnescapePlain(t: string, i: nat, rest: string)
    requires i + 1 <= |t| && t[i] != '\\' && t[i] != '"' && UnescapeFrom(t, i + 1) == Some(rest)
    ensures UnescapeFrom(t, i) == Some([t[i]] + rest)
  {
  }

  /**
   The quoted body of a rendered string reads back to the original text, and
   the body never holds a bare `"` that would end the string early.
   */
  lemma EscapeRoundTrip(s: string)
    ensures UnescapeFrom(Escape(s), 0) == Some(s)
  {
    EscapeIsPerChar(s);
    UnescapeFromEscapeEach(s, []);
    assert [] + EscapeEach(s) == Escape(s);
  }

  // ---- Reading a rendered value back ------------------------------------

  /**
   Reads the text of a null, boolean, integer, unsigned or string value
   back. Float and timestamp texts are not covered: both are bare decimals.
   */
  function ReadValue(t: string): Option<PointValue>
  {
    if t == [] then Some(Null)
    else if t == "t" then Some(Boolean(true))
    else if t == "f" then Some(Boolean(false))
    else if t[0] == '"' then
      if |t| >= 2 && t[|t| - 1] == '"' then
        match UnescapeFrom(t[1..|t| - 1], 0)
        case Some(s) => Some(String(s))
        case None => None
      else None
    else if t[|t| - 1] == 'i' then
      match ParseInt(t[..|t| - 1], I64_MIN, I64_MAX, true)
      case Some(v) => Some(Integer(v))
      case None => None
    else if t[|t| - 1] == 'u' then
      match ParseInt(t[..|t| - 1], 0, U64_MAX, false)
      case Some(v) => Some(UInteger(v))
      case None => None
    else None
  }

  /**
   The rendering of every non-float, non-timestamp value is unambiguous: it
   reads back to the same value.
   */
  lemma RenderReadBack(v: PointValue, ft: FloatText)
    requires !v.Float? && !v.Timestamp?
    ensures ReadValue(Render(v, ft)) == Some(v)
  {
    var t := Render(v, ft);
    match v
    case Null =>
    case Boolean(b) =>
    case Integer(i) =>
      ParseIntText(i, I64_MIN, I64_MAX, true);
      assert t[..|t| - 1] == IntText(i);
    case UInteger(u) =>
      ParseIntText(u, 0, U64_MAX, false);
      assert t[..|t| - 1] == IntText(u);
    case String(s) =>
      EscapeRoundTrip(s);
      assert t[1..|t| - 1] == Escape(s);
  }

  /** A timestamp renders as the plain decimal of its nanoseconds. */
  lemma TimestampReadBack(v: PointValue, ft: FloatText)
    requires v.Timestamp? && Renderable(v)
    ensures ParseInt(Render(v, ft), I64_MIN, I64_MAX, true) == Some(v.nanos)
  {
    ParseIntText(v.nanos, I64_MIN, I64_MAX, true);
  }
}
