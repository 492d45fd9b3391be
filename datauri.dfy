/** The `data:` URL of RFC 2397 with the `;base64` marker, as the profile
    photo is stored, and the reading that recovers its parts. */
module DataUri {
  import opened Common
  import opened Base64

  /** `data:${mimetype};base64,${base64}`. */
  function Build(mediaType: string, data: seq<byte>): string {
    "data:" + mediaType + ";base64," + Encode(data)
  }

  /** The position of the last `;` of `s`. */
  function LastSemicolon(s: string): (r: Option<nat>)
    ensures r.Some? ==> r.value < |s| && s[r.value] == ';' && forall j :: r.value < j < |s| ==> s[j] != ';'
    ensures r.None? ==> forall j :: 0 <= j < |s| ==> s[j] != ';'
    decreases |s|
  {
    if s == [] then None
    else if s[|s| - 1] == ';' then Some(|s| - 1)
    else LastSemicolon(s[..|s| - 1])
  }

  /** Reading a base64 `data:` URL: the media type runs up to the last `;`,
      which must open `;base64,`, and the rest is decoded. A base 64 text
      holds no `;`, so the media type itself may contain one. */
  function Parse(uri: string): Option<(string, seq<byte>)> {
    if !StartsWith(uri, "data:") then None
    else match LastSemicolon(uri)
      case None => None
      case Some(i) =>
        if i < 5 || !StartsWith(uri[i..], ";base64,") then None
        else match Decode(uri[i + 8..])
          case None => None
          case Some(data) => Some((uri[5..i], data))
  }

  /** Reading a built URL gives back the media type and the bytes. */
  lemma ParseBuild(mediaType: string, data: seq<byte>)
    ensures Parse(Build(mediaType, data)) == Some((mediaType, data))
  {
    var u := Build(mediaType, data);
    var e := Encode(data);
    var i := 5 + |mediaType|;
    assert u[..5] == "data:";
    assert u[i] == ';';
    forall j | i < j < |u| ensures u[j] != ';' {
      if j < i + 8 {
        assert u[j] == ";base64,"[j - i];
      } else {
        assert u[j] == e[j - i - 8];
        assert IsEncodingChar(e[j - i - 8]);
      }
    }
    assert LastSemicolon(u) == Some(i);
    assert u[i..][..8] == ";base64,";
    assert u[i + 8..] == e;
    assert u[5..i] == mediaType;
    DecodeEncode(data);
  }
}
