/**
 * The Karabiner-Elements import button tag, `{% biner name %}`
 * (biner/biner.rb).  The tag is pure: its markup is stripped into a name,
 * and rendering derives the URL of the JSON modification file, the
 * `karabiner://` import URL that carries it, and the HTML of a split
 * button whose attributes hold both URLs HTML-escaped.
 */
module Biner {
  import opened Common
  import Text
  import Escape

  /** The default base directory: the author's site and the path of its modification files. */
  const DefaultHost := "https://brettterpstra.com"
  const DefaultBaseUrl := DefaultHost + "/karabiner/modifications"
  const KarabinerScheme := "karabiner://karabiner/assets/complex_modifications/import"

  /** The part of the import URL before the escaped JSON URL. */
  const ImportPrefix := KarabinerScheme + "?url="

  /**
   * The site configuration the tag reads: the site `url` and the
   * `base_directory` of the `biner` section, each absent or present
   * (a present nil is read as "", which is what `to_s` makes of it).
   */
  datatype Site = Site(url: Option<string>, baseDirectory: Option<string>)

  /** The tag's name: the markup, stripped. */
  function Name(markup: string): (r: string)
    ensures |r| > 0 ==> !Text.IsStripChar(r[0]) && !Text.IsStripChar(r[|r| - 1])
  {
    Text.StripEnds(markup);
    Text.Strip(markup)
  }

  /** A configured value, or `alternative` when it is absent. */
  function OrElse(v: Option<string>, alternative: string): string
  {
    match v
    case Some(s) => s
    case None => alternative
  }

  /** The site url, stripped, with one trailing '/' removed. */
  function SiteRoot(site: Site): string
  {
    Text.Chomp(Text.Strip(OrElse(site.url, "")), '/')
  }

  /** The base directory (configured or default), stripped, with one trailing '/' removed. */
  function BaseDirectory(site: Site): string
  {
    Text.Chomp(Text.Strip(OrElse(site.baseDirectory, DefaultBaseUrl)), '/')
  }

  /** A name starting with '/' is a path on the site; any other names a file in the base directory. */
  function JsonUrl(name: string, site: Site): string
  {
    if |name| > 0 && name[0] == '/' then SiteRoot(site) + name
    else BaseDirectory(site) + "/" + name + ".json"
  }

  /** The Karabiner import URL, carrying the JSON URL `CGI.escape`d. */
  function ImportUrl(json: string): string
  {
    ImportPrefix + Escape.FormEncode(Escape.Cgi, json)
  }

  // The markup surrounding the three interpolated attribute values.
  const OpenWrap: string :=
    "<div class=\"biner-wrap\" data-json-url=\""
  const BeforeImport: string :=
    Text.DoubleQuote + ">\n  <div class=\"biner-btn-group\">\n    <a href=\""
  const BeforeShowJson: string :=
    Text.DoubleQuote + " class=\"biner-btn-main\">Import to Karabiner</a>\n    <button type=\"button\" class=\"biner-btn-dropdown-toggle\" aria-expanded=\"false\" aria-haspopup=\"true\" title=\"More options\">\n      <span class=\"biner-chevron\" aria-hidden=\"true\">&#9660;</span>\n    </button>\n  </div>\n  <div class=\"biner-dropdown-menu\" role=\"menu\" hidden>\n    <a href=\""
  const CloseWrap: string :=
    Text.DoubleQuote + " target=\"_blank\" rel=\"noopener\" class=\"biner-dropdown-item\" role=\"menuitem\">Show JSON</a>\n    <button type=\"button\" class=\"biner-dropdown-item biner-copy-url\" role=\"menuitem\">Copy JSON URL</button>\n  </div>\n</div>\n"

  /** The button markup with both URLs HTML-escaped into their attributes. */
  function Markup(json: string, importUrl: string): string
  {
    OpenWrap + Escape.EscapeHtml(json)
    + (BeforeImport + Escape.EscapeHtml(importUrl)
       + (BeforeShowJson + Escape.EscapeHtml(json) + CloseWrap))
  }

  /** What the tag renders for a name: nothing for an empty name, else the button. */
  function Render(name: string, site: Site): string
  {
    if name == [] then ""
    else
      var json := JsonUrl(name, site);
      Markup(json, ImportUrl(json))
  }
  /** A blank markup renders nothing; any other renders the button. */
  lemma BlankMarkupRendersNothing(markup: string, site: Site)
    ensures Render(Name(markup), site) == "" <==> Text.AllStripChars(markup)
  {
    Text.StripEmptyIff(markup);
  }

  /** `s` with at most one trailing '/' removed, and one removed if it was there. */
  predicate ChompedOnce(root: string, s: string)
  {
    root + "/" == s || (root == s && (s == [] || s[|s| - 1] != '/'))
  }

  /** A path name is appended to the site root, which lost one trailing '/' at most. */
  lemma PathJsonUrl(name: string, site: Site)
    requires |name| > 0 && name[0] == '/'
    ensures ChompedOnce(SiteRoot(site), Text.Strip(OrElse(site.url, "")))
    ensures JsonUrl(name, site) == SiteRoot(site) + name
  {
  }

  /** Any other name becomes `<base>/<name>.json` for the chomped base directory. */
  lemma FileJsonUrl(name: string, site: Site)
    requires !(|name| > 0 && name[0] == '/')
    ensures ChompedOnce(BaseDirectory(site), Text.Strip(OrElse(site.baseDirectory, DefaultBaseUrl)))
    ensures JsonUrl(name, site) == BaseDirectory(site) + "/" + name + ".json"
  {
  }

  /** Without a configured base directory the default one is used unchanged. */
  lemma DefaultBaseDirectory(site: Site)
    requires site.baseDirectory.None?
    ensures BaseDirectory(site) == DefaultBaseUrl
  {
    Text.StripOfTrimmed(DefaultBaseUrl);
  }

  /** The import URL carries the JSON URL losslessly: `CGI.unescape` of its query value gives back its UTF-8 bytes. */
  lemma ImportUrlRoundTrip(json: string)
    ensures ImportPrefix <= ImportUrl(json)
    ensures Escape.PercentDecode(ImportUrl(json)[|ImportPrefix|..], true) == Some(Escape.Utf8Encode(json))
  {
    Escape.FormEncodeRoundTrip(Escape.Cgi, json);
    assert ImportUrl(json)[|ImportPrefix|..] == Escape.FormEncode(Escape.Cgi, json);
  }

  /**
   * How a browser reads a double-quoted attribute that follows `before`:
   * the value runs to the next '"' and is HTML-unescaped; the rest follows.
   */
  function Attribute(m: string, before: string): Option<(string, string)>
  {
    if before <= m then
      var r := m[|before|..];
      var e := Text.TakeUntil(r, '"');
      Some((Escape.UnescapeHtml(e), r[|e|..]))
    else None
  }

  /** The three attribute values of the button markup, when it has the button's shape. */
  function ParseMarkup(m: string): Option<(string, string, string)>
  {
    match Attribute(m, OpenWrap)
    case None => None
    case Some((dataJsonUrl, r1)) =>
      match Attribute(r1, BeforeImport)
      case None => None
      case Some((mainHref, r2)) =>
        match Attribute(r2, BeforeShowJson)
        case None => None
        case Some((showJsonHref, r3)) =>
          if r3 == CloseWrap then Some((dataJsonUrl, mainHref, showJsonHref)) else None
  }

  /** An escaped value cannot end its attribute early, and unescapes to itself. */
  lemma AttributeOf(before: string, s: string, rest: string)
    requires |rest| > 0 && rest[0] == '"'
    ensures Attribute(before + Escape.EscapeHtml(s) + rest, before) == Some((s, rest))
  {
    var e := Escape.EscapeHtml(s);
    var m := before + e + rest;
    assert m[|before|..] == e + rest;
    assert '"' !in e;
    Text.TakeUntilOf(e, '"', rest);
    assert (e + rest)[|e|..] == rest;
    Escape.HtmlRoundTrip(s);
  }

  /**
   * `data-json-url` and the Show JSON href hold the JSON URL and the main
   * href holds the import URL, each read back unchanged from the markup.
   */
  lemma MarkupRoundTrip(json: string, importUrl: string)
    ensures ParseMarkup(Markup(json, importUrl)) == Some((json, importUrl, json))
  {
    var tail := BeforeShowJson + Escape.EscapeHtml(json) + CloseWrap;
    var middle := BeforeImport + Escape.EscapeHtml(importUrl) + tail;
    AttributeOf(OpenWrap, json, middle);
    AttributeOf(BeforeImport, importUrl, tail);
    AttributeOf(BeforeShowJson, json, CloseWrap);
  }

  /** A non-empty name renders a button pointing at its JSON URL and the matching import URL. */
  lemma RenderPlacesUrls(name: string, site: Site)
    requires name != []
    ensures var json := JsonUrl(name, site);
            ParseMarkup(Render(name, site)) == Some((json, ImportUrl(json), json))
  {
    var json := JsonUrl(name, site);
    MarkupRoundTrip(json, ImportUrl(json));
  }
}
