/** The base64 payload of a `data:` URL, as both pages cut it out with `split(',')[1]`. */
module DataUrl {
  import opened Optional
  import opened JsText

  /** `dataUrl.split(',')[1]`: the text between the first comma and the next one (or the end). */
  function Payload(dataUrl: string): (r: Option<string>)
    ensures r.None? <==> ',' !in dataUrl
    ensures r.Some? ==> ',' !in r.value
  {
    var parts := Split(dataUrl, ',');
    if |parts| > 1 then Some(parts[1]) else None
  }

  /** For `data:<type>;base64,<data>` the payload is exactly `<data>`. */
  lemma PayloadOfDataUrl(header: string, data: string)
    requires ',' !in header && ',' !in data
    ensures Payload(header + "," + data) == Some(data)
  {
    SplitJoin([header, data], ',');
    assert Join([header, data], ',') == header + "," + data;
  }
}
