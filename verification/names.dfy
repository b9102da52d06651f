/**
 The name validator shared by tag names and field names. The source checks
 the UTF-8 bytes of the name; the model does the same over `Utf8Encode` and
 proves the equivalent character-level description.
 */
module Names {
  import opened Base

  predicate IsAsciiAlphanumericByte(b: byte) {
    (0x30 <= b <= 0x39) || (0x41 <= b <= 0x5A) || (0x61 <= b <= 0x7A)
  }

  /** Bytes allowed anywhere in a name: ASCII letters, digits, `_` and `-`. */
  predicate IsNameByte(b: byte) {
    IsAsciiAlphanumericByte(b) || b == 0x5F || b == 0x2D
  }

  /**
   `validate_name`: non-empty, alphanumeric first byte, every byte allowed.
   Read on characters, that is the rule `WellFormedName` states.
   */
  predicate ValidateName(name: string): (b: bool)
    ensures b <==> WellFormedName(name)
  {
    NameBytesIffNameChars(name);
    if |name| > 0 then FirstByteIsFirstChar(name); ByteRule(Utf8Encode(name)) else ByteRule(Utf8Encode(name))
  }

  /** The byte-level rule the source checks. */
  predicate ByteRule(bs: seq<byte>) {
    |bs| > 0 && IsAsciiAlphanumericByte(bs[0]) && forall k :: 0 <= k < |bs| ==> IsNameByte(bs[k])
  }

  predicate IsAsciiAlphanumeric(c: char) {
    ('0' <= c <= '9') || ('A' <= c <= 'Z') || ('a' <= c <= 'z')
  }

  predicate IsNameChar(c: char) {
    IsAsciiAlphanumeric(c) || c == '_' || c == '-'
  }

  /** The character-level reading of the rule. */
  predicate WellFormedName(name: string) {
    |name| > 0 && IsAsciiAlphanumeric(name[0]) && forall k :: 0 <= k < |name| ==> IsNameChar(name[k])
  }

  lemma {:induction false} NameBytesIffNameChars(name: string)
    ensures (forall k :: 0 <= k < |Utf8Encode(name)| ==> IsNameByte(Utf8Encode(name)[k]))
        <==> (forall k :: 0 <= k < |name| ==> IsNameChar(name[k]))
  {
    if name != [] {
      var init := name[..|name| - 1];
      var c := name[|name| - 1];
      NameBytesIffNameChars(init);
      assert name == init + [c];
      var bs := Utf8Encode(name);
      assert bs == Utf8Encode(init) + Utf8Char(c);
      if forall k :: 0 <= k < |bs| ==> IsNameByte(bs[k]) {
        assert forall k :: 0 <= k < |Utf8Encode(init)| ==> IsNameByte(Utf8Encode(init)[k]) by {
          forall k | 0 <= k < |Utf8Encode(init)| ensures IsNameByte(Utf8Encode(init)[k]) {
            assert bs[k] == Utf8Encode(init)[k];
          }
        }
        assert IsNameByte(bs[|Utf8Encode(init)|]);
        assert forall k :: 0 <= k < |name| ==> IsNameChar(name[k]) by {
          forall k | 0 <= k < |name| ensures IsNameChar(name[k]) {
            if k < |init| {
              assert name[k] == init[k];
            }
          }
        }
      }
      if forall k :: 0 <= k < |name| ==> IsNameChar(name[k]) {
        assert forall k :: 0 <= k < |init| ==> IsNameChar(init[k]) by {
          forall k | 0 <= k < |init| ensures IsNameChar(init[k]) {
            assert init[k] == name[k];
          }
        }
        assert IsNameChar(c);
      }
    }
  }

  lemma FirstByteIsFirstChar(name: string)
    requires |name| > 0
    ensures |Utf8Encode(name)| > 0
    ensures IsAsciiAlphanumericByte(Utf8Encode(name)[0]) <==> IsAsciiAlphanumeric(name[0])
  {
    Utf8EncodeAppend([name[0]], name[1..]);
    assert [name[0]] + name[1..] == name;
    assert Utf8Encode([name[0]]) == Utf8Char(name[0]) by {
      assert [name[0]][..0] == [];
    }
  }

  /** The empty name is rejected. */
  lemma EmptyNameRejected()
    ensures !ValidateName("")
  {
  }

  /** A name starting with `_` or `-` is rejected. */
  lemma LeadingSeparatorRejected(name: string)
    requires |name| > 0 && (name[0] == '_' || name[0] == '-')
    ensures !ValidateName(name)
  {
  }

  /** A name holding any character outside the alphabet (a space, `,`, `=`, `:`, any non-ASCII character) is rejected. */
  lemma ForeignCharRejected(name: string, k: nat)
    requires k < |name| && !IsNameChar(name[k])
    ensures !ValidateName(name)
  {
  }

  /** Appending an allowed character keeps an accepted name accepted. */
  lemma AppendKeepsValid(name: string, c: char)
    requires ValidateName(name) && IsNameChar(c)
    ensures ValidateName(name + [c])
  {
    assert (name + [c])[0] == name[0];
  }
}
