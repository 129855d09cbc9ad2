/** `extractReadableContent`: the per-format dispatch on a file's lower-cased
    extension, with the HTML, YAML and JSON libraries left uninterpreted. */
module Extract {
  import opened Options
  import opened JsString
  import opened Paths

  /** What `extractReadableContent` hands back: a string, or `undefined`
      (`JSON.stringify` of a YAML document that loads as `undefined`). */
  datatype Extracted = Text(text: string) | Undefined

  /** The foreign libraries. Each is a total function of the file content;
      `None` stands for "threw" (or, for the DOM, "has no body").
      - bodyText: JSDOM with nav/footer/header/menu/aside removed and YouTube
        iframes replaced by a link line, then `document.body.textContent`;
      - yamlToJson: `yaml.load` then `JSON.stringify(_, null, 2)`;
      - jsonToJson: `JSON.parse` then `JSON.stringify(_, null, 2)`. */
  datatype Codecs = Codecs(
    bodyText: string -> Option<string>,
    yamlToJson: string -> Option<Extracted>,
    jsonToJson: string -> Option<string>)

  /** The closed set of content formats the extractor tells apart. */
  datatype Format = Markup | Config | Data | Plain

  /** The format a lower-cased extension selects. */
  function FormatOf(ext: string): (f: Format)
    ensures f == Markup <==> ext == ".html" || ext == ".htm"
    ensures f == Config <==> ext == ".yaml" || ext == ".yml"
    ensures f == Data <==> ext == ".json"
  {
    if ext == ".html" || ext == ".htm" then Markup
    else if ext == ".yaml" || ext == ".yml" then Config
    else if ext == ".json" then Data
    else Plain
  }

  /** `extractReadableContent(filePath, content)`. */
  function ExtractReadableContent(codecs: Codecs, filePath: string, content: string): (r: Extracted)
    // anything that is not markup, YAML or JSON passes through unchanged
    ensures FormatOf(Lower(ExtName(filePath))) == Plain ==> r == Text(content)
    // markup yields the trimmed text of the document body, or "" without one;
    // that string is already trimmed
    ensures FormatOf(Lower(ExtName(filePath))) == Markup ==>
      r == Text(match codecs.bodyText(content) case Some(t) => Trim(t) case None => "")
    ensures FormatOf(Lower(ExtName(filePath))) == Markup ==> r.Text? && Trim(r.text) == r.text
    // YAML and JSON that parse yield their re-serialisation
    ensures FormatOf(Lower(ExtName(filePath))) == Config && codecs.yamlToJson(content).Some? ==> r == codecs.yamlToJson(content).value
    ensures FormatOf(Lower(ExtName(filePath))) == Data && codecs.jsonToJson(content).Some? ==> r == Text(codecs.jsonToJson(content).value)
    // a YAML or JSON parse failure falls back to the original content
    ensures FormatOf(Lower(ExtName(filePath))) == Config && codecs.yamlToJson(content).None? ==> r == Text(content)
    ensures FormatOf(Lower(ExtName(filePath))) == Data && codecs.jsonToJson(content).None? ==> r == Text(content)
    // only YAML can produce something that is not a string
    ensures r.Undefined? ==> FormatOf(Lower(ExtName(filePath))) == Config
  {
    match FormatOf(Lower(ExtName(filePath)))
    case Markup =>
      (match codecs.bodyText(content)
       case Some(t) => TrimIdempotent(t); Text(Trim(t))
       case None => Text(""))
    case Config =>
      (match codecs.yamlToJson(content)
       case Some(rendered) => rendered
       case None => Text(content))
    case Data =>
      (match codecs.jsonToJson(content)
       case Some(rendered) => Text(rendered)
       case None => Text(content))
    case Plain => Text(content)
  }

  /** Extension matching is case-insensitive: two paths that agree once
      lower-cased are extracted alike. */
  lemma ExtractCaseInsensitive(codecs: Codecs, p: string, q: string, content: string)
    requires Lower(p) == Lower(q)
    ensures ExtractReadableContent(codecs, p, content) == ExtractReadableContent(codecs, q, content)
  {
    ExtNameLower(p);
    ExtNameLower(q);
  }
}
