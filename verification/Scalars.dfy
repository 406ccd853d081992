/** Scalars as text: how they are printed into XML elements and query parameters, and how
    the parsers read them. */
module Scalars {
  import opened Outcomes
  import opened Shapes
  import opened Unicode
  import Base64

  /** `_get_base64`: text is encoded first. */
  function BlobText(v: Val): string
    requires FitsKind(Blob, v)
  {
    Base64.Encode(if v.Str? then EncodeUtf8(v.text) else v.bytes)
  }

  function Printed(kind: Kind, v: Val): string
    requires FitsKind(kind, v)
  {
    match kind
    case Text => v.text
    case Blob => BlobText(v)
    case Boolean => if v.flag then "true" else "false"
  }

  /** `_parse_blob`. */
  function ReadBlob(text: string): Outcome<Val> {
    var bytes :- Base64.Decode(text);
    Ok(Bytes(bytes))
  }

  function ReadText(kind: Kind, text: string): (r: Outcome<Val>)
    ensures r != Ok(Null)
  {
    match kind
    case Text => Ok(Str(text))
    case Blob => ReadBlob(text)
    case Boolean =>
      if Lower(text) == "true" then Ok(Bool(true)) else if Lower(text) == "false" then Ok(Bool(false)) else Err
  }

  lemma BlobBack(v: Val)
    requires FitsKind(Blob, v)
    ensures ReadBlob(BlobText(v)) == Ok(NormalScalar(Blob, v))
  {
    Base64.RoundTrip(if v.Str? then EncodeUtf8(v.text) else v.bytes);
  }

  /** A printed scalar is read back; a blob that was given as text comes back as its bytes. */
  lemma ReadPrinted(kind: Kind, v: Val)
    requires FitsKind(kind, v)
    ensures ReadText(kind, Printed(kind, v)) == Ok(NormalScalar(kind, v))
  {
    match kind
    case Text =>
    case Blob => BlobBack(v);
    case Boolean => assert Lower("true") == "true" && Lower("false") == "false";
  }

  /** The word, in whatever case. */
  predicate InAnyCase(text: string, word: string) {
    |text| == |word| && forall i | 0 <= i < |word| :: text[i] == word[i] || text[i] as int == word[i] as int - 32
  }

  /** `true` and `false` are read in any case, and nothing else is. */
  lemma BooleansInAnyCase(text: string)
    ensures ReadText(Boolean, text) == if InAnyCase(text, "true") then Ok(Bool(true))
                                       else if InAnyCase(text, "false") then Ok(Bool(false)) else Err
  {
    LowerIs(text, "true");
    LowerIs(text, "false");
  }

  lemma LowerIs(text: string, word: string)
    requires forall i | 0 <= i < |word| :: 'a' <= word[i] <= 'z'
    ensures Lower(text) == word <==> InAnyCase(text, word)
  {
    if InAnyCase(text, word) {
      forall i | 0 <= i < |word| ensures Lower(text)[i] == word[i] {}
    }
    if Lower(text) == word {
      forall i | 0 <= i < |word| ensures text[i] == word[i] || text[i] as int == word[i] as int - 32 {
        assert Lower(text)[i] == word[i];
      }
    }
  }
}
