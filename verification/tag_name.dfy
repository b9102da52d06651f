/**
 `TagName`: a text that is known to pass the name validator. The subset type
 makes the validator a type invariant, so every key of a `TagMap` carries it.
 */
module TagNames {
  import opened Base
  import opened Names

  datatype TagNameText = TagNameText(text: string)

  type TagName = t: TagNameText | ValidateName(t.text) witness TagNameText("0")

  /** Tag keys are validated names; tag values are unrestricted text. */
  type TagMap = map<TagName, string>

  /**
   `TryFrom<&str>`, `TryFrom<String>` and `TryFrom<&String>`: texts are
   values in the model, so the three conversions are one function.
   */
  function TryFrom(value: string): (r: Result<TagName, Error>)
    ensures r.Ok? <==> ValidateName(value)
    ensures r.Ok? ==> AsRef(r.value) == value
    ensures r.Err? ==> r.error == InvalidTagName(value)
  {
    if !ValidateName(value) then Err(InvalidTagName(value)) else Ok(TagNameText(value))
  }

  /** `AsRef<str>` and `Deref<Target = str>`: the wrapped text. */
  function AsRef(t: TagName): (s: string)
    ensures ValidateName(s)
  {
    t.text
  }

  /** `From<&TagName>`: a clone. */
  function FromRef(t: TagName): (r: TagName)
    ensures AsRef(r) == AsRef(t)
  {
    TagNameText(t.text)
  }

  /** Going through the text and back is the identity on tag names. */
  lemma TryFromAsRef(t: TagName)
    ensures TryFrom(AsRef(t)) == Ok(t)
  {
  }

  /** Every key of a tag map is a valid name, so it never fails `TryFrom`. */
  lemma TagMapKeysValid(m: TagMap, k: TagName)
    requires k in m
    ensures WellFormedName(AsRef(k))
  {
  }
}
