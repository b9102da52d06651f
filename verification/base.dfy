/**
 Shared vocabulary of the client model: the failure-carrying wrappers, the
 error variants the core raises, the fixed-width integer ranges of the Rust
 types, bytes and their UTF-8 view of text, and association lists (the
 entry sequences a hash map hands out when it is iterated).
 */
module Base {

  /** Rust's `Option<T>`. */
  datatype Option<+T> = None | Some(value: T) {
    function GetOr(default: T): T {
      match this
      case Some(v) => v
      case None => default
    }
  }

  /** Rust's `Result<T, E>`. */
  datatype Result<+T, +E> = Ok(value: T) | Err(error: E)

  /** The variants of `InfluxDBError` that the modelled core produces. */
  datatype Error =
    | InvalidTagName(name: string)
    | InvalidTimestampPrecision(token: string)
    | InvalidPointValueConversion(message: string)
    | InvalidPointValue(column: string, dataType: string)
    | FlightError(detail: string)
    | Other(message: string)

  // Ranges of the Rust integer types.
  const I8_MIN: int := -0x80
  const I8_MAX: int := 0x7F
  const I16_MIN: int := -0x8000
  const I16_MAX: int := 0x7FFF
  const I32_MIN: int := -0x8000_0000
  const I32_MAX: int := 0x7FFF_FFFF
  const I64_MIN: int := -0x8000_0000_0000_0000
  const I64_MAX: int := 0x7FFF_FFFF_FFFF_FFFF
  const U8_MAX: int := 0xFF
  const U16_MAX: int := 0xFFFF
  const U32_MAX: int := 0xFFFF_FFFF
  const U64_MAX: int := 0xFFFF_FFFF_FFFF_FFFF

  type i64 = x: int | I64_MIN <= x <= I64_MAX
  type u64 = x: int | 0 <= x <= U64_MAX

  predicate InI64(x: int) {
    I64_MIN <= x <= I64_MAX
  }

  type byte = b: int | 0 <= b < 0x100

  /** Number of bytes the UTF-8 encoding of `c` takes. */
  function Utf8Width(c: char): (n: nat)
    ensures 1 <= n <= 4
    ensures n == 1 <==> (c as int) < 0x80
  {
    if (c as int) < 0x80 then 1
    else if (c as int) < 0x800 then 2
    else if (c as int) < 0x1_0000 then 3
    else 4
  }

  /** The UTF-8 encoding of one Unicode scalar value. */
  function Utf8Char(c: char): (bs: seq<byte>)
    ensures |bs| == Utf8Width(c)
    ensures (c as int) < 0x80 ==> bs == [c as int as byte]
    ensures (c as int) >= 0x80 ==> forall k :: 0 <= k < |bs| ==> bs[k] >= 0x80
  {
    var cp := c as int;
    if cp < 0x80 then [cp as byte]
    else if cp < 0x800 then [0xC0 + cp / 0x40, 0x80 + cp % 0x40]
    else if cp < 0x1_0000 then [0xE0 + cp / 0x1000, 0x80 + (cp / 0x40) % 0x40, 0x80 + cp % 0x40]
    else [0xF0 + cp / 0x4_0000, 0x80 + (cp / 0x1000) % 0x40, 0x80 + (cp / 0x40) % 0x40, 0x80 + cp % 0x40]
  }

  /** Rust's `str::as_bytes`: the UTF-8 encoding of a text. */
  function Utf8Encode(s: string): seq<byte>
  {
    if s == [] then [] else Utf8Encode(s[..|s| - 1]) + Utf8Char(s[|s| - 1])
  }

  lemma {:induction false} Utf8EncodeAppend(a: string, b: string)
    ensures Utf8Encode(a + b) == Utf8Encode(a) + Utf8Encode(b)
    decreases |b|
  {
    if b == [] {
      assert a + b == a;
    } else {
      var b' := b[..|b| - 1];
      assert (a + b)[..|a + b| - 1] == a + b';
      assert (a + b)[|a + b| - 1] == b[|b| - 1];
      Utf8EncodeAppend(a, b');
    }
  }

  /** A text made of ASCII characters encodes to exactly its code points. */
  lemma {:induction false} Utf8EncodeAscii(s: string)
    requires forall k :: 0 <= k < |s| ==> (s[k] as int) < 0x80
    ensures |Utf8Encode(s)| == |s|
    ensures forall k :: 0 <= k < |s| ==> Utf8Encode(s)[k] == s[k] as int
  {
    if s != [] {
      Utf8EncodeAscii(s[..|s| - 1]);
    }
  }

  /** Flattening of a sequence of sequences, in order. */
  function Concat<T>(ss: seq<seq<T>>): seq<T>
  {
    if ss == [] then [] else Concat(ss[..|ss| - 1]) + ss[|ss| - 1]
  }

  lemma {:induction false} ConcatAppend<T>(a: seq<seq<T>>, b: seq<seq<T>>)
    ensures Concat(a + b) == Concat(a) + Concat(b)
    decreases |b|
  {
    if b == [] {
      assert a + b == a;
    } else {
      var b' := b[..|b| - 1];
      assert (a + b)[..|a + b| - 1] == a + b';
      ConcatAppend(a, b');
    }
  }

  lemma ConcatSingle<T>(x: seq<T>)
    ensures Concat([x]) == x
  {
    assert [x][..0] == [];
  }

  /** The keys of an association list. */
  function Keys<K, V>(es: seq<(K, V)>): set<K>
  {
    set i | 0 <= i < |es| :: es[i].0
  }

  predicate DistinctKeys<K(==), V>(es: seq<(K, V)>)
  {
    forall i, j :: 0 <= i < j < |es| ==> es[i].0 != es[j].0
  }

  /**
   Collecting an association list into a map, the way `collect()` into a
   `HashMap` does: a later entry for the same key overwrites an earlier one.
   */
  function CollectMap<K, V>(es: seq<(K, V)>): (m: map<K, V>)
    ensures m.Keys == Keys(es)
  {
    if es == [] then map[]
    else
      var m' := CollectMap(es[..|es| - 1]);
      assert Keys(es) == Keys(es[..|es| - 1]) + {es[|es| - 1].0} by {
        forall k | k in Keys(es) ensures k in Keys(es[..|es| - 1]) + {es[|es| - 1].0} {
          var i :| 0 <= i < |es| && es[i].0 == k;
          if i < |es| - 1 {
            assert es[..|es| - 1][i] == es[i];
          }
        }
      }
      m'[es[|es| - 1].0 := es[|es| - 1].1]
  }

  /** The value a collected map holds for a key is that of its last entry. */
  lemma {:induction false} CollectMapLast<K, V>(es: seq<(K, V)>, j: nat)
    requires j < |es|
    requires forall i :: j < i < |es| ==> es[i].0 != es[j].0
    ensures es[j].0 in CollectMap(es) && CollectMap(es)[es[j].0] == es[j].1
  {
    if j < |es| - 1 {
      var es' := es[..|es| - 1];
      assert es'[j] == es[j];
      forall i | j < i < |es'| ensures es'[i].0 != es'[j].0 {
        assert es'[i] == es[i];
      }
      CollectMapLast(es', j);
    }
  }

  /**
   `es` is one enumeration of the map `m`: every key exactly once, with its
   value. This is how a hash map's iteration order enters the model.
   */
  ghost predicate Enumerates<K, V>(es: seq<(K, V)>, m: map<K, V>)
  {
    DistinctKeys(es) && CollectMap(es) == m
  }
}
