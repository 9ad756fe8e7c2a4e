/**
 * The HTML5 audio tag, `{% audio url/to/mp3,ogg,blank ["Title"] %}`
 * (HTML5Audio/audio_tag.rb).  Parsing finds the song URL in the markup and
 * derives an mp3 source, an ogg source or both from its extension, plus the
 * title that follows it; rendering (in production, after prefixing the
 * stored sources with the CDN url in place) emits a `figure` holding an
 * `audio` element with one `source` per stored source.
 */
module Audio {
  import opened Common
  import Text

  const SyntaxError := "Error processing input, expected syntax: {% audio url/to/mp3,ogg,blank [\"Title\"] %}"

  /** The site configuration the tag reads: whether `production` is set, and `cdn_url`. */
  datatype AudioSite = AudioSite(production: bool, cdnUrl: Option<string>)

  /** What `initialize` stores: the two sources and the title, each possibly nil. */
  datatype Sources = Sources(mp3: Option<string>, ogg: Option<string>, title: Option<string>)

  // ---------------------------------------------------------------- markup

  /** The end of the run of `\S` characters that starts at `i`. */
  function NonSpaceEnd(s: string, i: nat): (e: nat)
    requires i <= |s|
    ensures i <= e <= |s|
    ensures forall j :: i <= j < e ==> !Text.IsSpace(s[j])
    ensures e < |s| ==> Text.IsSpace(s[e])
    decreases |s| - i
  {
    if i == |s| || Text.IsSpace(s[i]) then i else NonSpaceEnd(s, i + 1)
  }

  /** The end of the run of `\s` characters that starts at `i`. */
  function SpaceEnd(s: string, i: nat): (e: nat)
    requires i <= |s|
    ensures i <= e <= |s|
    ensures forall j :: i <= j < e ==> Text.IsSpace(s[j])
    ensures e < |s| ==> !Text.IsSpace(s[e])
    decreases |s| - i
  {
    if i == |s| || !Text.IsSpace(s[i]) then i else SpaceEnd(s, i + 1)
  }

  /** The scanners stop exactly at the first character that ends their run. */
  lemma {:induction false} NonSpaceEndAt(s: string, i: nat, e: nat)
    requires i <= e <= |s|
    requires forall j :: i <= j < e ==> !Text.IsSpace(s[j])
    requires e == |s| || Text.IsSpace(s[e])
    ensures NonSpaceEnd(s, i) == e
    decreases e - i
  {
    if i < e {
      NonSpaceEndAt(s, i + 1, e);
    }
  }

  lemma {:induction false} SpaceEndAt(s: string, i: nat, e: nat)
    requires i <= e <= |s|
    requires forall j :: i <= j < e ==> Text.IsSpace(s[j])
    requires e == |s| || !Text.IsSpace(s[e])
    ensures SpaceEnd(s, i) == e
    decreases e - i
  {
    if i < e {
      SpaceEndAt(s, i + 1, e);
    }
  }

  lemma {:induction false} LineEndAtEnd(s: string, i: nat)
    requires i <= |s|
    requires forall j :: i <= j < |s| ==> s[j] != '\n'
    ensures Text.LineEnd(s, i) == |s|
    decreases |s| - i
  {
    if i < |s| {
      LineEndAtEnd(s, i + 1);
    }
  }

  /**
   * `p` (lower-case) occurs at `i`, ignoring ASCII case. Ruby's `/i` also
   * folds a few other characters (U+017F folds to `s`); those are not
   * matched here.
   */
  predicate PrefixAt(s: string, i: nat, p: string)
  {
    i + |p| <= |s| && Text.Downcase(s[i..i + |p|]) == p
  }

  /**
   * A match of `(https?:\/\/|\/)(\S+)` starts at `i`: one of the two
   * openings, followed by at least one non-space character.
   */
  predicate IsSongStart(s: string, i: nat)
  {
    i < |s|
    && ((PrefixAt(s, i, "https://") && NonSpaceEnd(s, i) > i + 8)
        || (PrefixAt(s, i, "http://") && NonSpaceEnd(s, i) > i + 7)
        || (s[i] == '/' && NonSpaceEnd(s, i) > i + 1))
  }

  /** The leftmost position at or after `i` where a song starts. */
  function SongStart(s: string, i: nat): (r: Option<nat>)
    requires i <= |s|
    ensures r.Some? ==> i <= r.value < |s| && IsSongStart(s, r.value)
    ensures forall j :: i <= j < |s| && (r.None? || j < r.value) ==> !IsSongStart(s, j)
    decreases |s| - i
  {
    if i == |s| then None
    else if IsSongStart(s, i) then Some(i)
    else SongStart(s, i + 1)
  }

  /**
   * The song (`$1`: the whole non-space run from the match start) and the
   * title (`$6`: after the blanks that follow the song, to the end of that
   * line), present whenever any blank follows the song (`$5` is not nil).
   */
  function SongAndTitle(markup: string): Option<(string, Option<string>)>
  {
    match SongStart(markup, 0)
    case None => None
    case Some(i) =>
      var e := NonSpaceEnd(markup, i);
      var title :=
        if e < |markup| then
          var k := SpaceEnd(markup, e);
          Some(markup[k..Text.LineEnd(markup, k)])
        else None;
      Some((markup[i..e], title))
  }

  /** The sources for a song: an `.mp3` song is the mp3 source, an `.ogg` song the ogg one, any other gets both extensions. */
  function SourcesFor(song: string, title: Option<string>): Sources
  {
    if Text.EndsWith(song, ".mp3") then Sources(Some(song), None, title)
    else if Text.EndsWith(song, ".ogg") then Sources(None, Some(song), title)
    else Sources(Some(song + ".mp3"), Some(song + ".ogg"), title)
  }

  /** What `initialize` stores for a markup. */
  function Parse(markup: string): Sources
  {
    match SongAndTitle(markup)
    case None => Sources(None, None, None)
    case Some((song, title)) => SourcesFor(song, title)
  }

  /** An ASCII-case-insensitive prefix seen at `i` is a prefix of any piece of `s` from `i` that holds it. */
  lemma PrefixAtPiece(s: string, i: nat, e: nat, p: string)
    requires PrefixAt(s, i, p) && i + |p| <= e <= |s|
    ensures PrefixAt(s[i..e], 0, p)
  {
    assert s[i..e][0..|p|] == s[i..i + |p|];
  }

  /** The song found at a match start: at least two non-space characters with one of the three openings. */
  lemma SongAt(markup: string, i: nat)
    requires IsSongStart(markup, i)
    ensures var song := markup[i..NonSpaceEnd(markup, i)];
            |song| >= 2 && (forall j :: 0 <= j < |song| ==> !Text.IsSpace(song[j]))
            && (PrefixAt(song, 0, "https://") || PrefixAt(song, 0, "http://") || song[0] == '/')
  {
    var e := NonSpaceEnd(markup, i);
    if PrefixAt(markup, i, "https://") && e > i + 8 {
      PrefixAtPiece(markup, i, e, "https://");
    } else if PrefixAt(markup, i, "http://") && e > i + 7 {
      PrefixAtPiece(markup, i, e, "http://");
    }
  }

  /** A song is found exactly when a match can start somewhere; it is a run of at least two non-space characters with one of the three openings. */
  lemma SongShape(markup: string)
    ensures SongAndTitle(markup).Some? <==> exists i :: 0 <= i < |markup| && IsSongStart(markup, i)
    ensures SongAndTitle(markup).Some? ==>
              var song := SongAndTitle(markup).value.0;
              |song| >= 2 && (forall j :: 0 <= j < |song| ==> !Text.IsSpace(song[j]))
              && (PrefixAt(song, 0, "https://") || PrefixAt(song, 0, "http://") || song[0] == '/')
  {
    match SongStart(markup, 0)
    case None =>
    case Some(i) =>
      SongAt(markup, i);
  }

  /**
   * At least one source is set exactly when a song is found; every source
   * ends in its own extension and starts with the song.
   */
  lemma SourcesByExtension(markup: string)
    ensures var p := Parse(markup);
            (p.mp3.None? && p.ogg.None?) <==> SongAndTitle(markup).None?
    ensures var p := Parse(markup);
            p.mp3.Some? ==> Text.EndsWith(p.mp3.value, ".mp3") && SongAndTitle(markup).value.0 <= p.mp3.value
    ensures var p := Parse(markup);
            p.ogg.Some? ==> Text.EndsWith(p.ogg.value, ".ogg") && SongAndTitle(markup).value.0 <= p.ogg.value
    ensures var p := Parse(markup);
            p.mp3.Some? && p.ogg.Some? ==> p.mp3.value[..|p.mp3.value| - 4] == p.ogg.value[..|p.ogg.value| - 4]
  {
    match SongAndTitle(markup)
    case None =>
    case Some((song, title)) =>
      var mp3, ogg := song + ".mp3", song + ".ogg";
      assert mp3[|mp3| - 4..] == ".mp3" && ogg[|ogg| - 4..] == ".ogg";
      assert mp3[..|mp3| - 4] == song == ogg[..|ogg| - 4];
  }

  /** A song stays a match start, with the same end, when a blank or nothing follows it. */
  lemma SongStartExtends(song: string, rest: string)
    requires IsSongStart(song, 0) && forall j :: 0 <= j < |song| ==> !Text.IsSpace(song[j])
    requires rest == [] || Text.IsSpace(rest[0])
    ensures IsSongStart(song + rest, 0) && NonSpaceEnd(song + rest, 0) == |song|
  {
    var m := song + rest;
    NonSpaceEndAt(song, 0, |song|);
    assert forall j :: 0 <= j < |song| ==> m[j] == song[j];
    NonSpaceEndAt(m, 0, |song|);
    if |song| >= 8 {
      assert m[0..8] == song[0..8];
    }
    if |song| >= 7 {
      assert m[0..7] == song[0..7];
    }
  }

  /**
   * A markup that starts with the song: blanks after it make the title the
   * rest of the line exactly as written (quotes included), and the sources
   * depend on the song alone.
   */
  lemma SongThenTitle(song: string, blanks: string, title: string)
    requires IsSongStart(song, 0) && forall j :: 0 <= j < |song| ==> !Text.IsSpace(song[j])
    requires |blanks| > 0 && forall j :: 0 <= j < |blanks| ==> Text.IsSpace(blanks[j])
    requires '\n' !in title && (title == [] || !Text.IsSpace(title[0]))
    ensures Parse(song + blanks + title) == SourcesFor(song, Some(title))
  {
    var m := song + blanks + title;
    assert forall j :: 0 <= j < |song| ==> m[j] == song[j];
    assert forall j :: 0 <= j < |blanks| ==> m[|song| + j] == blanks[j];
    assert forall j :: 0 <= j < |title| ==> m[|song| + |blanks| + j] == title[j];
    SongStartExtends(song, blanks + title);
    assert m == song + (blanks + title);
    var k := |song| + |blanks|;
    SpaceEndAt(m, |song|, k);
    LineEndAtEnd(m, k);
    assert m[0..|song|] == song;
    assert m[k..|m|] == title;
  }

  /** A song alone (no blank after it) gives no title. */
  lemma SongAlone(song: string)
    requires IsSongStart(song, 0) && forall j :: 0 <= j < |song| ==> !Text.IsSpace(song[j])
    ensures Parse(song) == SourcesFor(song, None)
  {
    NonSpaceEndAt(song, 0, |song|);
    assert song[0..|song|] == song;
  }

  /**
   * The title is stored as written: the quotes of the documented syntax
   * `{% audio /share/junkyangel "Junky Angel" %}` stay in it, so the
   * figcaption shows them.
   */
  lemma QuotedTitleKeepsQuotes(song: string, blanks: string, t: string)
    requires IsSongStart(song, 0) && forall j :: 0 <= j < |song| ==> !Text.IsSpace(song[j])
    requires |blanks| > 0 && forall j :: 0 <= j < |blanks| ==> Text.IsSpace(blanks[j])
    requires '\n' !in t
    ensures Parse(song + blanks + ("\"" + t + "\"")).title == Some("\"" + t + "\"")
    ensures Parse(song + blanks + ("\"" + t + "\"")).title != Some(t)
  {
    SongThenTitle(song, blanks, "\"" + t + "\"");
    assert |"\"" + t + "\""| != |t|;
  }

  /** The title as the documented output shows it: stripped, with its surrounding quotes removed. */
  function FixedTitle(title: Option<string>): Option<string>
  {
    match title
    case Some(t) => Some(Text.DropQuotes(Text.Strip(t)))
    case None => None
  }

  /** `initialize` with the title unquoted. */
  function ParseFixed(markup: string): Sources
  {
    var p := Parse(markup);
    Sources(p.mp3, p.ogg, FixedTitle(p.title))
  }

  /** With the fix, a quoted title (followed by the blanks before `%}`) is stored without its quotes. */
  lemma FixedTitleUnquoted(song: string, blanks: string, t: string, trailing: string)
    requires IsSongStart(song, 0) && forall j :: 0 <= j < |song| ==> !Text.IsSpace(song[j])
    requires |blanks| > 0 && forall j :: 0 <= j < |blanks| ==> Text.IsSpace(blanks[j])
    requires '\n' !in t && '\n' !in trailing && forall j :: 0 <= j < |trailing| ==> Text.IsSpace(trailing[j])
    ensures ParseFixed(song + blanks + ("\"" + t + "\"" + trailing)).title == Some(t)
    ensures ParseFixed(song + blanks + ("\"" + t + "\"" + trailing)).mp3 == Parse(song).mp3
  {
    var quoted := "\"" + t + "\"";
    SongThenTitle(song, blanks, quoted + trailing);
    SongAlone(song);
    Text.StripAppend(quoted, trailing);
    Text.StripOfTrimmed(quoted);
    assert quoted == ['"'] + t + ['"'];
    Text.DropQuotesUnwraps('"', t, '"');
  }

  // ---------------------------------------------------------------- output

  datatype Format = Mp3 | Ogg

  function Extension(f: Format): string
  {
    match f
    case Mp3 => "mp3"
    case Ogg => "ogg"
  }

  const Open := "<figure class=\"audio\"><audio controls=\"true\">"
  const SourceOpen := "<source src=\""
  const NotSupported := "HTML5 audio not supported </audio>"
  const CaptionOpen := "<figcaption>"
  const Close := "</figure>"

  function TypeClose(f: Format): string
  {
    "\" type=\"audio/" + Extension(f) + "\">"
  }

  /** A `source` element for one stored source, or nothing. */
  function SourceTag(src: Option<string>, f: Format): string
  {
    match src
    case Some(s) => SourceOpen + s + TypeClose(f)
    case None => ""
  }

  /** A `figcaption` for a title, or nothing. */
  function Caption(title: Option<string>): string
  {
    match title
    case Some(t) => CaptionOpen + t + "</figcaption>"
    case None => ""
  }

  /** The rendered figure for the stored sources and title. */
  function Figure(mp3: Option<string>, ogg: Option<string>, title: Option<string>): string
  {
    Open + SourceTag(mp3, Mp3) + SourceTag(ogg, Ogg) + NotSupported + Caption(title) + Close
  }

  /** A `source` element of the given format at the start of `s`: its src (to the next '"') and what follows. */
  function ReadSource(s: string, f: Format): (Option<string>, string)
  {
    if SourceOpen <= s then
      var r := s[|SourceOpen|..];
      var src := Text.TakeUntil(r, '"');
      var after := r[|src|..];
      if TypeClose(f) <= after then (Some(src), after[|TypeClose(f)|..]) else (None, s)
    else (None, s)
  }

  /** The end of a figure: the fallback text, then nothing or a figcaption, then the closing tag. */
  function ReadTail(r: string): Option<Option<string>>
  {
    if NotSupported <= r then
      var r3 := r[|NotSupported|..];
      var captionClose := "</figcaption>" + Close;
      if r3 == Close then Some(None)
      else if |CaptionOpen| + |captionClose| <= |r3| && CaptionOpen <= r3 && Text.EndsWith(r3, captionClose) then
        Some(Some(r3[|CaptionOpen|..|r3| - |captionClose|]))
      else None
    else None
  }

  /** The sources and title read back from a figure, in the order a browser sees them. */
  function ReadFigure(html: string): Option<Sources>
  {
    if Open <= html then
      var (mp3, r1) := ReadSource(html[|Open|..], Mp3);
      var (ogg, r2) := ReadSource(r1, Ogg);
      match ReadTail(r2)
      case None => None
      case Some(title) => Some(Sources(mp3, ogg, title))
    else None
  }

  lemma ReadSourceOf(src: string, f: Format, rest: string)
    requires '"' !in src
    ensures ReadSource(SourceTag(Some(src), f) + rest, f) == (Some(src), rest)
  {
    var s := SourceTag(Some(src), f) + rest;
    var tail := TypeClose(f) + rest;
    Text.AppendAssociative(SourceOpen + src, TypeClose(f), rest);
    Text.AppendAssociative(SourceOpen, src, tail);
    assert s[|SourceOpen|..] == src + tail;
    assert tail[0] == '"';
    Text.TakeUntilOf(src, '"', tail);
    assert (src + tail)[|src|..] == tail;
    assert tail[|TypeClose(f)|..] == rest;
  }

  /** An ogg `source` is not read as an mp3 one. */
  lemma ReadSourceSkipsOgg(src: string, rest: string)
    requires '"' !in src
    ensures ReadSource(SourceTag(Some(src), Ogg) + rest, Mp3) == (None, SourceTag(Some(src), Ogg) + rest)
  {
    var s := SourceTag(Some(src), Ogg) + rest;
    var tail := TypeClose(Ogg) + rest;
    Text.AppendAssociative(SourceOpen + src, TypeClose(Ogg), rest);
    Text.AppendAssociative(SourceOpen, src, tail);
    assert s[|SourceOpen|..] == src + tail;
    assert tail[0] == '"';
    Text.TakeUntilOf(src, '"', tail);
    assert (src + tail)[|src|..] == tail;
    assert tail[14] == TypeClose(Ogg)[14] == 'o';
    assert TypeClose(Mp3)[14] == 'm';
  }

  /** The text after the sources is not read as a `source`. */
  lemma ReadSourceSkipsText(f: Format, rest: string)
    ensures ReadSource(NotSupported + rest, f) == (None, NotSupported + rest)
  {
    assert (NotSupported + rest)[0] == 'H' != SourceOpen[0];
  }

  /** The end of a figure reads back its title. */
  lemma ReadTailOf(title: Option<string>)
    ensures ReadTail(NotSupported + (Caption(title) + Close)) == Some(title)
  {
    var r := NotSupported + (Caption(title) + Close);
    assert r[|NotSupported|..] == Caption(title) + Close;
    if title.Some? {
      var t := title.value;
      var r3 := Caption(title) + Close;
      assert r3 == CaptionOpen + t + ("</figcaption>" + Close);
      assert r3[1] == 'f' != Close[1];
      assert r3[|CaptionOpen|..|r3| - |"</figcaption>" + Close|] == t;
    }
  }

  /** The two optional sources, read in order from the start of `s`. */
  lemma ReadSourcesOf(mp3: Option<string>, ogg: Option<string>, rest: string)
    requires mp3.Some? ==> '"' !in mp3.value
    requires ogg.Some? ==> '"' !in ogg.value
    ensures var s := SourceTag(mp3, Mp3) + (SourceTag(ogg, Ogg) + (NotSupported + rest));
            var (m, r1) := ReadSource(s, Mp3);
            m == mp3 && ReadSource(r1, Ogg) == (ogg, NotSupported + rest)
  {
    var tail := NotSupported + rest;
    var afterMp3 := SourceTag(ogg, Ogg) + tail;
    if mp3.None? {
      assert SourceTag(mp3, Mp3) + afterMp3 == afterMp3;
    }
    if ogg.None? {
      assert afterMp3 == tail;
    }
    if mp3.Some? {
      ReadSourceOf(mp3.value, Mp3, afterMp3);
    } else if ogg.Some? {
      ReadSourceSkipsOgg(ogg.value, tail);
    } else {
      ReadSourceSkipsText(Mp3, rest);
    }
    if ogg.Some? {
      ReadSourceOf(ogg.value, Ogg, tail);
    } else {
      ReadSourceSkipsText(Ogg, rest);
    }
  }

  /** The figure, grouped from the right. */
  lemma FigureNested(mp3: Option<string>, ogg: Option<string>, title: Option<string>)
    ensures Figure(mp3, ogg, title)
         == Open + (SourceTag(mp3, Mp3) + (SourceTag(ogg, Ogg) + (NotSupported + (Caption(title) + Close))))
  {
    var a, b, c, d, e, f := Open, SourceTag(mp3, Mp3), SourceTag(ogg, Ogg), NotSupported, Caption(title), Close;
    Text.AppendAssociative(a + b + c + d, e, f);
    Text.AppendAssociative(a + b + c, d, e + f);
    Text.AppendAssociative(a + b, c, d + (e + f));
    Text.AppendAssociative(a, b, c + (d + (e + f)));
  }

  /**
   * The figure holds the mp3 source before the ogg source, then the
   * fallback text, then a figcaption exactly when there is a title: each is
   * read back unchanged from the output, given sources without a '"'.
   */
  lemma FigureRoundTrip(mp3: Option<string>, ogg: Option<string>, title: Option<string>)
    requires mp3.Some? ==> '"' !in mp3.value
    requires ogg.Some? ==> '"' !in ogg.value
    ensures ReadFigure(Figure(mp3, ogg, title)) == Some(Sources(mp3, ogg, title))
  {
    var rest := Caption(title) + Close;
    var body := SourceTag(mp3, Mp3) + (SourceTag(ogg, Ogg) + (NotSupported + rest));
    FigureNested(mp3, ogg, title);
    assert (Open + body)[|Open|..] == body;
    ReadSourcesOf(mp3, ogg, rest);
    ReadTailOf(title);
  }

  /** The stored source after the production CDN prefix (nil stays nil). */
  function WithCdn(src: Option<string>, cdn: string): Option<string>
  {
    match src
    case Some(s) => Some(cdn + s)
    case None => None
  }

  /** The stored source after k production renders with one `cdn_url`. */
  function RenderedSource(src: Option<string>, cdn: string, k: nat): Option<string>
  {
    if k == 0 then src else WithCdn(RenderedSource(src, cdn, k - 1), cdn)
  }

  /** k copies of a string, one after the other. */
  function Repeat(s: string, k: nat): string
  {
    if k == 0 then [] else s + Repeat(s, k - 1)
  }

  /**
   * The prefix accumulates: after k production renders a stored source
   * carries k copies of `cdn_url` in front of the song, so a second render
   * of one tag differs from the first whenever `cdn_url` is not empty.
   */
  lemma {:induction false} CdnAccumulates(src: Option<string>, cdn: string, k: nat)
    ensures RenderedSource(src, cdn, k) == (if src.None? then None else Some(Repeat(cdn, k) + src.value))
    ensures src.Some? && cdn != [] && k > 0 ==> RenderedSource(src, cdn, k) != RenderedSource(src, cdn, k - 1)
  {
    if k > 0 {
      CdnAccumulates(src, cdn, k - 1);
      if src.Some? {
        Text.AppendAssociative(cdn, Repeat(cdn, k - 1), src.value);
        assert Repeat(cdn, k) == cdn + Repeat(cdn, k - 1);
        assert RenderedSource(src, cdn, k) == Some(cdn + (Repeat(cdn, k - 1) + src.value));
        assert |Repeat(cdn, k) + src.value| == |Repeat(cdn, k - 1) + src.value| + |cdn| by {
          RepeatLength(cdn, k);
          RepeatLength(cdn, k - 1);
        }
      }
    } else if src.Some? {
      assert Repeat(cdn, 0) + src.value == src.value;
    }
  }

  lemma {:induction false} RepeatLength(s: string, k: nat)
    ensures |Repeat(s, k)| == k * |s|
  {
    if k > 0 {
      RepeatLength(s, k - 1);
    }
  }

  class AudioTag {
    var mp3: Option<string>
    var ogg: Option<string>
    var title: Option<string>

    /** `initialize`: the song found in the markup and its title decide the stored fields. */
    constructor(markup: string)
      ensures Sources(mp3, ogg, title) == Parse(markup)
    {
      mp3, ogg, title := None, None, None;
      match SongAndTitle(markup) {
        case None =>
        case Some((song, t)) =>
          title := t;
          if Text.EndsWith(song, ".mp3") {
            mp3 := Some(song);
          } else if Text.EndsWith(song, ".ogg") {
            ogg := Some(song);
          } else {
            mp3 := Some(song + ".mp3");
            ogg := Some(song + ".ogg");
          }
      }
    }

    /**
     * `render`: with no source, the syntax error text; otherwise, in
     * production, the stored sources are first prefixed with `cdn_url` in
     * place (so every further render prefixes them again, and a missing
     * `cdn_url` raises), then the figure is built.
     */
    method Render(site: AudioSite) returns (r: Outcome<string>)
      modifies this
      ensures title == old(title)
      ensures old(mp3).None? && old(ogg).None? ==> r == Done(SyntaxError) && mp3 == old(mp3) && ogg == old(ogg)
      ensures (old(mp3).Some? || old(ogg).Some?) && site.production && site.cdnUrl.None? ==>
                r.Raised? && mp3 == old(mp3) && ogg == old(ogg)
      ensures (old(mp3).Some? || old(ogg).Some?) && site.production && site.cdnUrl.Some? ==>
                mp3 == WithCdn(old(mp3), site.cdnUrl.value) && ogg == WithCdn(old(ogg), site.cdnUrl.value)
      ensures (old(mp3).Some? || old(ogg).Some?) && !site.production ==> mp3 == old(mp3) && ogg == old(ogg)
      ensures (old(mp3).Some? || old(ogg).Some?) && !(site.production && site.cdnUrl.None?) ==>
                r == Done(Figure(mp3, ogg, title))
    {
      if mp3.None? && ogg.None? {
        return Done(SyntaxError);
      }
      if site.production {
        if site.cdnUrl.None? {
          return Raised;
        }
        if mp3.Some? {
          mp3 := Some(site.cdnUrl.value + mp3.value);
        }
        if ogg.Some? {
          ogg := Some(site.cdnUrl.value + ogg.value);
        }
      }
      var audio := Open;
      if mp3.Some? {
        audio := audio + (SourceOpen + mp3.value + TypeClose(Mp3));
      }
      assert audio == Open + SourceTag(mp3, Mp3);
      if ogg.Some? {
        audio := audio + (SourceOpen + ogg.value + TypeClose(Ogg));
      }
      assert audio == Open + SourceTag(mp3, Mp3) + SourceTag(ogg, Ogg);
      audio := audio + NotSupported;
      if title.Some? {
        audio := audio + (CaptionOpen + title.value + "</figcaption>");
      }
      assert audio == Open + SourceTag(mp3, Mp3) + SourceTag(ogg, Ogg) + NotSupported + Caption(title);
      audio := audio + Close;
      r := Done(audio);
    }
  }
}
