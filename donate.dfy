/**
 * The PayPal donation tag, `{% donate [id] [text] %}`
 * (Donation/donate_tag.rb).  The markup may start with a hosted button id
 * (12 to 16 letters and digits) and may go on with the button text; what is
 * not given is taken from the site configuration on the first render and
 * stored in the tag, then placed unescaped into a fixed PayPal form.
 */
module Donate {
  import opened Common
  import Text

  const DefaultText := "Your donations are appreciated!"
  const Unconfigured := "UNCONFIGURED"

  /** The site configuration the tag reads: `donate_text` and `donate_id`. */
  datatype Site = Site(donateText: Option<string>, donateId: Option<string>)

  // ---------------------------------------------------------------- markup

  /**
   * The length of the id group of `^([A-Z0-9]{12,16})?` under `/i`: the
   * leading alphanumeric run, cut at 16, when it has at least 12
   * characters, and 0 otherwise.
   */
  function IdLength(markup: string): (n: nat)
    ensures n == 0 || 12 <= n <= 16
    ensures n <= |markup|
  {
    var run := Text.AlnumRunEnd(markup, 0);
    if run < 12 then 0 else if run > 16 then 16 else run
  }

  /** The hosted button id given in the markup, if any. */
  function IdOf(markup: string): Option<string>
  {
    var n := IdLength(markup);
    if n == 0 then None else Some(markup[..n])
  }

  /** The text group `(.*)`: the rest of the first line after the id. */
  function TextLine(markup: string): string
  {
    var n := IdLength(markup);
    markup[n..Text.LineEnd(markup, n)]
  }

  /** The button text given in the markup: present when the text group is not blank. */
  function TextOf(markup: string): Option<string>
  {
    var t := Text.Strip(TextLine(markup));
    if t == [] then None else Some(Text.DropQuotes(t))
  }

  /**
   * An id is present exactly when the markup starts with twelve letters or
   * digits; it is then the longest such prefix of at most 16 characters,
   * and so holds no double quote.
   */
  lemma IdShape(markup: string)
    ensures IdOf(markup).Some? <==> |markup| >= 12 && forall i :: 0 <= i < 12 ==> Text.IsAsciiAlnum(markup[i])
    ensures IdOf(markup).Some? ==>
              var id := IdOf(markup).value;
              12 <= |id| <= 16 && id <= markup
              && (forall i :: 0 <= i < |id| ==> Text.IsAsciiAlnum(id[i]))
              && (|id| < 16 ==> |id| == |markup| || !Text.IsAsciiAlnum(markup[|id|]))
              && '"' !in id
  {
    if IdOf(markup).Some? {
      var id := IdOf(markup).value;
      assert forall i :: 0 <= i < |id| ==> id[i] == markup[i];
      assert !Text.IsAsciiAlnum('"');
    }
  }

  /** The text is absent exactly when the rest of the first line is blank. */
  lemma TextAbsentIff(markup: string)
    ensures TextOf(markup).None? <==> Text.AllStripChars(TextLine(markup))
    ensures '\n' !in TextLine(markup)
  {
    Text.StripEmptyIff(TextLine(markup));
  }

  /** After an id of 12 to 16 letters and digits, the text group is the rest of the line. */
  lemma IdThenRest(id: string, rest: string)
    requires 12 <= |id| <= 16 && forall i :: 0 <= i < |id| ==> Text.IsAsciiAlnum(id[i])
    requires |rest| > 0 && !Text.IsAsciiAlnum(rest[0]) && '\n' !in rest
    ensures IdOf(id + rest) == Some(id) && TextLine(id + rest) == rest
  {
    var markup := id + rest;
    assert forall j :: 0 <= j < |id| ==> markup[j] == id[j];
    assert forall j :: |id| <= j < |markup| ==> markup[j] == rest[j - |id|];
    assert markup[|id|] == rest[0];
    assert Text.AlnumRunEnd(markup, 0) == |id|;
    assert markup[..|id|] == id;
    assert Text.LineEnd(markup, |id|) == |markup|;
    assert markup[|id|..|markup|] == rest;
  }

  /**
   * The documented form `{% donate 78YFVY22AWW42 "Buy me coffee" %}`: an id,
   * blanks, a quoted text and trailing blanks give that id and the text
   * without its quotes.
   */
  lemma IdThenQuotedText(id: string, sep: string, p: char, t: string, q: char, trailing: string)
    requires 12 <= |id| <= 16 && forall i :: 0 <= i < |id| ==> Text.IsAsciiAlnum(id[i])
    requires |sep| > 0 && Text.AllStripChars(sep) && Text.AllStripChars(trailing)
    requires Text.IsQuote(p) && Text.IsQuote(q)
    requires '\n' !in sep && '\n' !in t && '\n' !in trailing
    ensures var markup := id + (sep + ([p] + t + [q]) + trailing);
            IdOf(markup) == Some(id) && TextOf(markup) == Some(t)
  {
    var quoted := [p] + t + [q];
    var rest := sep + quoted + trailing;
    assert rest[0] == sep[0];
    IdThenRest(id, rest);
    Text.StripAppend(sep + quoted, trailing);
    Text.LStripAppend(sep, quoted);
    Text.StripOfTrimmed(quoted);
    Text.DropQuotesUnwraps(p, t, q);
  }

  // ---------------------------------------------------------------- output

  // The form around the id and the text.
  const FormOpen: string :=
    "<form class=\"paypalform\" action=\"https://www.paypal.com/cgi-bin/webscr\" method=\"post\">"
    + "<input type=\"hidden\" name=\"cmd\" value=\"_s-xclick\">"
    + "<input type=\"hidden\" name=\"hosted_button_id\" value=\""
  const FormMiddle: string :=
    Text.DoubleQuote + "><button class=\"paypalbutton\" name=\"submit\"><span>"
  const FormClose: string :=
    "</span></button>"
    + "<img alt=\"\" border=\"0\" src=\"https://www.paypal.com/en_US/i/scr/pixel.gif\" width=\"1\" height=\"1\">"
    + "</form>"

  /** The PayPal form with the id as `hosted_button_id` and the text in the button's span, both unescaped. */
  function Form(id: string, text: string): string
  {
    FormOpen + id + (FormMiddle + text + FormClose)
  }

  /** The id and text read back from a form: the id runs to the next '"', the text fills the span. */
  function ParseForm(out: string): Option<(string, string)>
  {
    if FormOpen <= out then
      var r := out[|FormOpen|..];
      var id := Text.TakeUntil(r, '"');
      var r2 := r[|id|..];
      if FormMiddle <= r2 && Text.EndsWith(r2[|FormMiddle|..], FormClose) then
        var body := r2[|FormMiddle|..];
        Some((id, body[..|body| - |FormClose|]))
      else None
    else None
  }

  /** An id without a double quote and any text are both read back from the form unchanged. */
  lemma FormRoundTrip(id: string, text: string)
    requires '"' !in id
    ensures ParseForm(Form(id, text)) == Some((id, text))
  {
    var tail := FormMiddle + text + FormClose;
    var out := Form(id, text);
    Text.AppendAssociative(FormOpen, id, tail);
    assert out[|FormOpen|..] == id + tail;
    Text.TakeUntilOf(id, '"', tail);
    assert (id + tail)[|id|..] == tail;
    Text.AppendAssociative(FormMiddle, text, FormClose);
    assert tail[|FormMiddle|..] == text + FormClose;
    assert (text + FormClose)[..|text|] == text;
  }

  /** A stored value, else the configured one, else the fallback (`@x ||= config[...] || fallback`). */
  function Resolve(stored: Option<string>, configured: Option<string>, fallback: string): string
  {
    match stored
    case Some(v) => v
    case None =>
      match configured
      case Some(c) => c
      case None => fallback
  }

  /** Whatever the stored values, the form rendered with a markup id reads back that id and the resolved text. */
  lemma MarkupIdRendered(markup: string, storedText: Option<string>, site: Site)
    requires IdOf(markup).Some?
    ensures var text := Resolve(storedText, site.donateText, DefaultText);
            ParseForm(Form(Resolve(IdOf(markup), site.donateId, Unconfigured), text))
            == Some((IdOf(markup).value, text))
  {
    IdShape(markup);
    FormRoundTrip(IdOf(markup).value, Resolve(storedText, site.donateText, DefaultText));
  }

  class DonateTag {
    var id: Option<string>
    var text: Option<string>

    /** `initialize`: captures the id and the text of the markup. */
    constructor(markup: string)
      ensures id == IdOf(markup) && text == TextOf(markup)
    {
      var n := IdLength(markup);
      id := if n == 0 then None else Some(markup[..n]);
      var t := Text.Strip(TextLine(markup));
      text := if t == [] then None else Some(Text.DropQuotes(t));
    }

    /**
     * `render`: fills in a missing text and id from the configuration or the
     * fallbacks, keeps them in the tag (so later renders reuse them), and
     * returns the form.
     */
    method Render(site: Site) returns (out: string)
      modifies this
      ensures text == Some(Resolve(old(text), site.donateText, DefaultText))
      ensures id == Some(Resolve(old(id), site.donateId, Unconfigured))
      ensures old(text).Some? ==> text == old(text)
      ensures old(id).Some? ==> id == old(id)
      ensures out == Form(id.value, text.value)
    {
      if text.None? {
        text := Some(if site.donateText.Some? then site.donateText.value else DefaultText);
      }
      if id.None? {
        id := Some(if site.donateId.Some? then site.donateId.value else Unconfigured);
      }
      out := FormOpen + id.value + (FormMiddle + text.value + FormClose);
    }
  }
}
