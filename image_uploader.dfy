/** The one computation in components/ImageUploader.tsx: cutting the
    base64 payload out of the data URL that `FileReader` produces. */
module ImageUploader {
  import opened Common
  import opened Text

  const COMMA: string := ","

  /** `result.split(',')[1]`: the text between the first comma and the
      next one (or the end); `None` for `undefined` when there is no comma. */
  function Base64Payload(dataUrl: string): (r: Option<string>)
    ensures r.None? <==> Find(dataUrl, COMMA).None?
    ensures r.Some? ==> Find(r.value, COMMA).None?
    ensures r.Some? ==> r.value == BeforeFirst(dataUrl[Find(dataUrl, COMMA).value + 1..], COMMA)
  {
    var parts := Split(dataUrl, COMMA);
    SplitHead(dataUrl, COMMA);
    if |parts| > 1 then
      SplitPiecesAreFree(dataUrl, COMMA, 1);
      Some(parts[1])
    else None
  }

  /** The data URL of a file, `data:<type>;base64,<payload>`, gives back its
      payload, since neither a MIME type nor base64 text contains a comma. */
  lemma PayloadOfDataUrl(mimeType: string, payload: string)
    requires Find(mimeType, COMMA).None? && Find(payload, COMMA).None?
    ensures Base64Payload("data:" + mimeType + ";base64," + payload) == Some(payload)
  {
    var head := "data:" + mimeType + ";base64";
    var url := head + COMMA + payload;
    assert "data:" + mimeType + ";base64," + payload == url;
    assert Find("data:", COMMA).None? by {
      forall i: nat ensures !OccursAt("data:", COMMA, i) {
        if i < 5 {
          assert "data:"[i..i + 1] == ["data:"[i]];
        }
      }
    }
    assert Find(";base64", COMMA).None? by {
      forall i: nat ensures !OccursAt(";base64", COMMA, i) {
        if i < 7 {
          assert ";base64"[i..i + 1] == [";base64"[i]];
        }
      }
    }
    NoCharInConcat("data:", mimeType, COMMA);
    NoCharInConcat("data:" + mimeType, ";base64", COMMA);
    FindCharAfter(head, COMMA, payload);
    assert url[|head| + 1..] == payload;
  }
}
