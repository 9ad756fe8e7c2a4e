/**
 * The `gist`, `gistnocache` and `gistbust` tags: fetch a gist's file from the
 * GitHub API, format it, and keep the result in a local cache keyed by a
 * sanitised file name.
 *
 * The pure functions below state what each step of the tag does to an
 * explicit `World` (the cache's entries and the counts of network calls and
 * cache writes); the classes of module `GistObjects` carry the same steps as methods over
 * mutable objects and are proved against those functions.
 */
module Gist {
  import opened Common
  import Text

  /** One entry of the API reply's `files` hash. */
  datatype FileEntry = FileEntry(
    filename: string,
    rawUrl: string,
    content: string,
    truncated: bool,
    language: Option<string>,
    /** The entry's own `updated_at` key. GitHub's file objects carry none: the timestamp is the gist's. */
    updatedAt: Option<string>)

  /** The parsed API reply for one gist: its `files` hash in order (None when the key is missing) and `updated_at`. */
  datatype Reply = Reply(files: Option<seq<(string, FileEntry)>>, updatedAt: Option<string>)

  /** A selected file entry after `get_gist_from_api` stored the gist's parsed `updated_at` in its `updated` key. */
  datatype Checked = Checked(entry: FileEntry, updated: string)

  /** The hash `gist_to_data` builds, which the cache stores and `html_for_data` renders. */
  datatype Record = Record(
    gist: string,
    updated: Option<string>,
    name: string,
    rawUrl: string,
    raw: string,
    lang: string,
    highlighted: string)

  /** Collaborators whose code is not part of this model: MD5 hex digest, the highlighter, `tableize_code`. */
  datatype Services = Services(
    md5: string -> string,
    highlight: (string, string) -> string,
    tableize: string -> string)

  /** `gist`, `gistnocache` (cache disabled) or `gistbust` (cache not read, but written). */
  datatype Kind = Plain | NoCache | BustCache

  /** The tag's instance variables that the cache logic reads. */
  datatype TagState = TagState(kind: Kind, gist: string, file: string, checkUpdate: bool)

  /** What the remote side answers: API replies by gist id and raw bodies by URL; a missing key is a failed request. */
  datatype RemoteData = RemoteData(gists: map<string, Reply>, raws: map<string, string>)

  /** The cache's contents and the number of API requests, raw requests and cache writes so far. */
  datatype World = World(entries: map<string, Record>, apiCalls: nat, rawCalls: nat, writes: nat)

  /** A computation's outcome together with the world it leaves behind. */
  datatype Step<T> = Step(out: Outcome<T>, world: World)

  // ---------------------------------------------------------------- cache file name

  /** The characters `get_cache_file` keeps: `[a-zA-Z0-9\-_.]`. */
  predicate IsCacheNameChar(c: char)
  {
    Text.IsAsciiAlnum(c) || c == '-' || c == '_' || c == '.'
  }

  /** `s.gsub(/[^a-zA-Z0-9\-_.]/, '')`. */
  function Clean(s: string): (r: string)
    ensures |r| <= |s|
    ensures forall i :: 0 <= i < |r| ==> IsCacheNameChar(r[i])
    ensures |s| == 1 ==> r == if IsCacheNameChar(s[0]) then s else []
  {
    if s == [] then [] else (if IsCacheNameChar(s[0]) then [s[0]] else []) + Clean(s[1..])
  }

  /**
   * Cleaning works character by character: the allowed characters of each
   * part survive in order and the others are dropped, so `a/b` cleans to `ab`.
   */
  lemma {:induction false} CleanAppend(a: string, b: string)
    ensures Clean(a + b) == Clean(a) + Clean(b)
  {
    if a == [] {
      assert a + b == b;
    } else {
      assert (a + b)[0] == a[0];
      assert (a + b)[1..] == a[1..] + b;
      CleanAppend(a[1..], b);
      Text.AppendAssociative(if IsCacheNameChar(a[0]) then [a[0]] else [], Clean(a[1..]), Clean(b));
    }
  }

  /** Cleaning keeps every allowed character: a name made only of them is left as it is. */
  lemma {:induction false} CleanKeepsAllowed(s: string)
    requires forall i :: 0 <= i < |s| ==> IsCacheNameChar(s[i])
    ensures Clean(s) == s
  {
    if s != [] {
      CleanKeepsAllowed(s[1..]);
    }
  }

  /** Cleaning is idempotent. */
  lemma CleanIdempotent(s: string)
    ensures Clean(Clean(s)) == Clean(s)
  {
    CleanKeepsAllowed(Clean(s));
  }

  /** The file name `get_cache_file` joins to the cache folder. */
  function CacheFileName(md5: string -> string, gist: string, file: string): string
  {
    var g := Clean(gist);
    var f := Clean(file);
    g + "-" + f + "-" + md5(g + "-" + f) + ".cachedata"
  }

  /** No `/` of the gist id or file name reaches the cache file name; with a hex digest it has none at all. */
  lemma CacheFileNameHasNoSlash(md5: string -> string, gist: string, file: string)
    requires '/' !in md5(Clean(gist) + "-" + Clean(file))
    ensures '/' !in CacheFileName(md5, gist, file)
  {
    var g, f := Clean(gist), Clean(file);
    assert !IsCacheNameChar('/');
    assert '/' !in g && '/' !in f;
    assert '/' !in "-" && '/' !in ".cachedata";
  }

  /** The cache file name depends on the two inputs only through their cleaned forms. */
  lemma CacheFileNameOnlyCleaned(md5: string -> string, g1: string, f1: string, g2: string, f2: string)
    requires Clean(g1) == Clean(g2) && Clean(f1) == Clean(f2)
    ensures CacheFileName(md5, g1, f1) == CacheFileName(md5, g2, f2)
  {
  }

  /** Two names `a-x` whose `a` part has no `-` split at the same place. */
  lemma SplitAtFirstDash(a1: string, x1: string, a2: string, x2: string)
    requires '-' !in a1 && '-' !in a2
    requires a1 + "-" + x1 == a2 + "-" + x2
    ensures a1 == a2 && x1 == x2
  {
    var n := a1 + "-" + x1;
    var n2 := a2 + "-" + x2;
    assert forall j :: 0 <= j < |a1| ==> n[j] == a1[j];
    assert forall j :: 0 <= j < |a2| ==> n2[j] == a2[j];
    assert n[|a1|] == '-' && n2[|a2|] == '-';
    assert |a1| == |a2|;
    assert n[..|a1|] == a1 && n2[..|a2|] == a2;
    assert n[|a1| + 1..] == x1 && n2[|a2| + 1..] == x2;
  }

  /** A name `a-c-m.cachedata` with no `-` in `a` and a known digest length determines `a` and `c`. */
  lemma NamePartsDetermined(a1: string, c1: string, m1: string, a2: string, c2: string, m2: string)
    requires '-' !in a1 && '-' !in a2 && |m1| == |m2|
    requires a1 + "-" + c1 + "-" + m1 + ".cachedata" == a2 + "-" + c2 + "-" + m2 + ".cachedata"
    ensures a1 == a2 && c1 == c2
  {
    var x1, x2 := c1 + "-" + m1 + ".cachedata", c2 + "-" + m2 + ".cachedata";
    assert a1 + "-" + c1 + "-" + m1 + ".cachedata" == a1 + "-" + x1;
    assert a2 + "-" + c2 + "-" + m2 + ".cachedata" == a2 + "-" + x2;
    SplitAtFirstDash(a1, x1, a2, x2);
    assert x1[..|c1|] == c1 && x2[..|c2|] == c2;
  }

  /**
   * Distinct cleaned pairs get distinct cache files when the gist id has no `-`
   * (the tag's regex admits only letters and digits) and the two digests have the same length.
   */
  lemma CacheFileNameInjective(md5: string -> string, g1: string, f1: string, g2: string, f2: string)
    requires |md5(Clean(g1) + "-" + Clean(f1))| == |md5(Clean(g2) + "-" + Clean(f2))|
    requires '-' !in Clean(g1) && '-' !in Clean(g2)
    requires CacheFileName(md5, g1, f1) == CacheFileName(md5, g2, f2)
    ensures Clean(g1) == Clean(g2) && Clean(f1) == Clean(f2)
  {
    var a1, c1, a2, c2 := Clean(g1), Clean(f1), Clean(g2), Clean(f2);
    NamePartsDetermined(a1, c1, md5(a1 + "-" + c1), a2, c2, md5(a2 + "-" + c2));
  }

  // ---------------------------------------------------------------- markup

  /** The markup regex `([a-z0-9]+)( .+)?` with `/i`: the first alphanumeric run, and the stripped rest of that line after one space. */
  function ParseMarkup(text: string): (r: Option<(string, string)>)
    ensures r.None? <==> forall i :: 0 <= i < |text| ==> !Text.IsAsciiAlnum(text[i])
    ensures r.Some? ==> r.value.0 != [] && forall i :: 0 <= i < |r.value.0| ==> Text.IsAsciiAlnum(r.value.0[i])
  {
    var p := FirstAlnum(text, 0);
    if p == |text| then None
    else
      var q := Text.AlnumRunEnd(text, p);
      var file :=
        if q + 1 < |text| && text[q] == ' ' && text[q + 1] != '\n'
        then Text.Strip(text[q..Text.LineEnd(text, q + 1)])
        else "";
      Some((text[p..q], file))
  }

  function FirstAlnum(s: string, i: nat): (p: nat)
    requires i <= |s|
    ensures i <= p <= |s|
    ensures forall j :: i <= j < p ==> !Text.IsAsciiAlnum(s[j])
    ensures p < |s| ==> Text.IsAsciiAlnum(s[p])
    decreases |s| - i
  {
    if i == |s| || Text.IsAsciiAlnum(s[i]) then i else FirstAlnum(s, i + 1)
  }

  /** The scan stops exactly at the first letter or digit. */
  lemma {:induction false} FirstAlnumAt(s: string, i: nat, p: nat)
    requires i <= p <= |s|
    requires forall j :: i <= j < p ==> !Text.IsAsciiAlnum(s[j])
    requires p == |s| || Text.IsAsciiAlnum(s[p])
    ensures FirstAlnum(s, i) == p
    decreases p - i
  {
    if i < p {
      FirstAlnumAt(s, i + 1, p);
    }
  }

  /**
   * The markup regex read from its definition: the leftmost match starts at
   * the first letter or digit `p`, where `[a-z0-9]+` takes the whole run up to
   * `q`; `( .+)?` then takes a space and the rest of that line when at least
   * one character other than a line feed follows it, and the file is that
   * rest, stripped. Otherwise there is no second group and the file is `""`.
   */
  lemma ParseMarkupOfRun(text: string, p: nat, q: nat)
    requires p < q <= |text|
    requires forall j :: 0 <= j < p ==> !Text.IsAsciiAlnum(text[j])
    requires forall j :: p <= j < q ==> Text.IsAsciiAlnum(text[j])
    requires q == |text| || !Text.IsAsciiAlnum(text[q])
    ensures ParseMarkup(text)
            == Some((text[p..q],
                     if q + 1 < |text| && text[q] == ' ' && text[q + 1] != '\n'
                     then Text.Strip(text[q + 1..Text.LineEnd(text, q + 1)])
                     else ""))
  {
    FirstAlnumAt(text, 0, p);
    Text.AlnumRunEndAt(text, p, q);
    if q + 1 < |text| && text[q] == ' ' && text[q + 1] != '\n' {
      var e := Text.LineEnd(text, q + 1);
      var rest := text[q + 1..e];
      assert text[q..e] == [' '] + rest;
      assert Text.AllStripChars([' ']) by {
        assert Text.IsSpace(' ');
      }
      Text.LStripAppend([' '], rest);
    }
  }

  // ---------------------------------------------------------------- API reply

  predicate HasFile(files: seq<(string, FileEntry)>, name: string)
  {
    exists i :: 0 <= i < |files| && files[i].0 == name
  }

  /** `files[name]`: the entry under that key. */
  function LookupFile(files: seq<(string, FileEntry)>, name: string): (r: Option<FileEntry>)
    ensures r.Some? <==> HasFile(files, name)
    ensures r.Some? ==> exists i :: 0 <= i < |files| && files[i] == (name, r.value)
  {
    if files == [] then None
    else if files[0].0 == name then Some(files[0].1)
    else
      var r := LookupFile(files[1..], name);
      assert forall i :: 1 <= i < |files| ==> files[i] == files[1..][i - 1];
      r
  }

  /**
   * The selection part of `get_gist_from_api`: None when the reply has no
   * `files` key; the named file when the name is non-empty and a key;
   * otherwise the first file. An empty `files` hash or a missing `updated_at`
   * raises (`nil['updated']=`, `Time.parse(nil)`).
   */
  function SelectFile(reply: Reply, file: string): (r: Outcome<Option<Checked>>)
    ensures reply.files.None? <==> r == Done(None)
    ensures r.Done? && r.value.Some? ==> reply.updatedAt == Some(r.value.value.updated)
    ensures reply.files.Some? && file != "" && HasFile(reply.files.value, file) && reply.updatedAt.Some?
            ==> r.Done? && r.value.Some? && (file, r.value.value.entry) in reply.files.value
    ensures reply.files.Some? && (file == "" || !HasFile(reply.files.value, file))
            && reply.files.value != [] && reply.updatedAt.Some?
            ==> r.Done? && r.value.Some? && r.value.value.entry == reply.files.value[0].1
    ensures reply.files == Some([]) ==> r == Raised
    ensures reply.files.Some? && reply.updatedAt.None? ==> r == Raised
  {
    if reply.files.None? then Done(None)
    else
      var files := reply.files.value;
      var f := if file != "" && HasFile(files, file) then LookupFile(files, file)
               else if files != [] then Some(files[0].1)
               else None;
      if f.None? || reply.updatedAt.None? then Raised
      else Done(Some(Checked(f.value, reply.updatedAt.value)))
  }

  // ---------------------------------------------------------------- world steps

  /** One request to the API for a gist: counted whether it succeeds or not. */
  function FetchReply(rd: RemoteData, gist: string, w: World): (s: Step<Reply>)
    ensures s.world == w.(apiCalls := w.apiCalls + 1)
    ensures s.out.Done? <==> gist in rd.gists
    ensures s.out.Done? ==> s.out.value == rd.gists[gist]
  {
    Step(if gist in rd.gists then Done(rd.gists[gist]) else Raised, w.(apiCalls := w.apiCalls + 1))
  }

  /** `get_gist_from_api`: one API request, then the selection. */
  function GetGistFromApi(t: TagState, rd: RemoteData, w: World): (s: Step<Option<Checked>>)
    ensures s.world == w.(apiCalls := w.apiCalls + 1)
  {
    var s := FetchReply(rd, t.gist, w);
    if s.out.Raised? then Step(Raised, s.world)
    else Step(SelectFile(s.out.value, t.file), s.world)
  }

  /** The raw text of an entry: its inline content, or the body of one extra request to its raw URL when truncated. */
  function RawText(rd: RemoteData, f: FileEntry, w: World): (s: Step<string>)
    ensures s.world == w.(rawCalls := w.rawCalls + (if f.truncated then 1 else 0))
    ensures !f.truncated ==> s.out == Done(f.content)
    ensures f.truncated ==> (s.out.Done? <==> f.rawUrl in rd.raws)
    ensures f.truncated && s.out.Done? ==> s.out.value == rd.raws[f.rawUrl]
  {
    if !f.truncated then Step(Done(f.content), w)
    else Step(if f.rawUrl in rd.raws then Done(rd.raws[f.rawUrl]) else Raised, w.(rawCalls := w.rawCalls + 1))
  }

  /** The record for a selected entry and its raw text. */
  function BuildRecord(gist: string, c: Checked, raw: string, svc: Services): (r: Record)
    ensures r.gist == gist && r.updated == Some(c.updated) && r.name == c.entry.filename
    ensures r.rawUrl == c.entry.rawUrl && r.raw == raw
    ensures c.entry.language.Some? ==> r.lang == Text.Downcase(c.entry.language.value)
                                       && r.highlighted == svc.highlight(raw, r.lang)
    ensures c.entry.language.None? ==> r.lang == ""
                                       && r.highlighted == svc.tableize(Text.ReplaceChar(Text.Strip(raw), '<', "&lt;"))
  {
    var f := c.entry;
    var lang := if f.language.Some? then Text.Downcase(f.language.value) else "";
    var source := if f.language.Some? then svc.highlight(raw, lang)
                  else svc.tableize(Text.ReplaceChar(Text.Strip(raw), '<', "&lt;"));
    Record(gist, Some(c.updated), f.filename, f.rawUrl, raw, lang, source)
  }

  /** `cache_data`: overwrites the entry under the given file name. */
  function Put(w: World, name: string, rec: Record): World
  {
    w.(entries := w.entries[name := rec], writes := w.writes + 1)
  }

  /** `gist_to_data`: needs a selected entry (`nil` raises); writes the record to the cache unless it is disabled. */
  function GistToData(t: TagState, rd: RemoteData, svc: Services, c: Option<Checked>, w: World): Step<Record>
  {
    if c.None? then Step(Raised, w)
    else
      var raw := RawText(rd, c.value.entry, w);
      if raw.out.Raised? then Step(Raised, raw.world)
      else
        var rec := BuildRecord(t.gist, c.value, raw.out.value, svc);
        if t.kind == NoCache then Step(Done(rec), raw.world)
        else Step(Done(rec), Put(raw.world, CacheFileName(svc.md5, t.gist, t.file), rec))
  }

  /** `get_data_from_api`. */
  function GetDataFromApi(t: TagState, rd: RemoteData, svc: Services, w: World): Step<Record>
  {
    var s := GetGistFromApi(t, rd, w);
    if s.out.Raised? then Step(Raised, s.world) else GistToData(t, rd, svc, s.out.value, s.world)
  }

  /**
   * `get_cached_gist` as written: the stored record's `updated` is compared
   * with the selected entry's own `updated_at` key.
   */
  function GetCachedGist(t: TagState, rd: RemoteData, svc: Services, w: World): Step<Option<Record>>
  {
    if t.kind != Plain then Step(Done(None), w)
    else
      var name := CacheFileName(svc.md5, t.gist, t.file);
      if name !in w.entries then Step(Done(None), w)
      else
        var stored := w.entries[name];
        if !t.checkUpdate then Step(Done(Some(stored)), w)
        else
          var check := GetGistFromApi(t, rd, w);
          if check.out.Raised? || check.out.value.None? then Step(Raised, check.world)
          else if stored.updated.Some? && stored.updated == check.out.value.value.entry.updatedAt
          then Step(Done(Some(stored)), check.world)
          else
            var d := GistToData(t, rd, svc, check.out.value, check.world);
            Step(if d.out.Done? then Done(Some(d.out.value)) else Raised, d.world)
  }

  // The fixed parts of the figure around the name, the raw URL and the highlighted source.
  const FigureOpen := "<figure class=\"code\">\n<figcaption><span>"
  const LinkOpen := "</span><a href=\""
  const LinkClose := "\">raw</a></figcaption>\n"
  const FigureClose := "\n</figure>"

  /** `html_for_data`: the pushed lines joined by line feeds. */
  function HtmlForData(rec: Record): string
  {
    FigureOpen + rec.name + (LinkOpen + rec.rawUrl + (LinkClose + rec.highlighted + FigureClose))
  }

  /** The name, the raw URL and the highlighted source read back from a figure. */
  function ReadFigure(out: string): Option<(string, string, string)>
  {
    if FigureOpen <= out then
      var r := out[|FigureOpen|..];
      var name := Text.TakeUntil(r, '<');
      match ReadLink(r[|name|..])
      case Some((url, source)) => Some((name, url, source))
      case None => None
    else None
  }

  /** The raw URL and the highlighted source read back from the figure after the name. */
  function ReadLink(r: string): Option<(string, string)>
  {
    if LinkOpen <= r then
      var r2 := r[|LinkOpen|..];
      var url := Text.TakeUntil(r2, '"');
      var r3 := r2[|url|..];
      if LinkClose <= r3 && Text.EndsWith(r3[|LinkClose|..], FigureClose) then
        var body := r3[|LinkClose|..];
        Some((url, body[..|body| - |FigureClose|]))
      else None
    else None
  }

  /** A raw URL without `"` and any highlighted source read back unchanged after the name. */
  lemma LinkRoundTrip(url: string, source: string)
    requires '"' !in url
    ensures ReadLink(LinkOpen + url + (LinkClose + source + FigureClose)) == Some((url, source))
  {
    var inner := LinkClose + source + FigureClose;
    var r := LinkOpen + url + inner;
    Text.AppendAssociative(LinkOpen, url, inner);
    assert r[|LinkOpen|..] == url + inner;
    Text.TakeUntilOf(url, '"', inner);
    assert (url + inner)[|url|..] == inner;
    Text.AppendAssociative(LinkClose, source, FigureClose);
    assert inner[|LinkClose|..] == source + FigureClose;
    assert (source + FigureClose)[..|source|] == source;
  }

  /**
   * The figure loses nothing: a name without `<` and a raw URL without `"`
   * read back unchanged, and so does the highlighted source, whatever it holds.
   */
  lemma FigureRoundTrip(rec: Record)
    requires '<' !in rec.name && '"' !in rec.rawUrl
    ensures ReadFigure(HtmlForData(rec)) == Some((rec.name, rec.rawUrl, rec.highlighted))
  {
    var tail := LinkOpen + rec.rawUrl + (LinkClose + rec.highlighted + FigureClose);
    Text.AppendAssociative(FigureOpen, rec.name, tail);
    assert HtmlForData(rec)[|FigureOpen|..] == rec.name + tail;
    Text.TakeUntilOf(rec.name, '<', tail);
    assert (rec.name + tail)[|rec.name|..] == tail;
    LinkRoundTrip(rec.rawUrl, rec.highlighted);
  }

  /** The state `render` leaves in the tag's fields once the markup has been parsed. */
  function RenderState(kind: Kind, text: string, checkUpdate: bool): Option<TagState>
  {
    var p := ParseMarkup(text);
    if p.None? then None else Some(TagState(kind, p.value.0, p.value.1, checkUpdate))
  }

  /** `render`: `""` when the markup holds no gist id; `nil` (None) when anything raised, as the blanket rescue returns nil. */
  function Render(kind: Kind, text: string, checkUpdate: bool, rd: RemoteData, svc: Services, w: World): Step<Option<string>>
  {
    var st := RenderState(kind, text, checkUpdate);
    if st.None? then Step(Done(Some("")), w)
    else
      var c := GetCachedGist(st.value, rd, svc, w);
      if c.out.Raised? then Step(Done(None), c.world)
      else if c.out.value.Some? then Step(Done(Some(HtmlForData(c.out.value.value))), c.world)
      else
        var d := GetDataFromApi(st.value, rd, svc, c.world);
        Step(Done(if d.out.Done? then Some(HtmlForData(d.out.value)) else None), d.world)
  }

  // ---------------------------------------------------------------- properties

  /** `gistnocache` and `gistbust` never read the cache: nothing happens and nil comes back. */
  lemma CacheSkippedWhenDisabledOrBust(t: TagState, rd: RemoteData, svc: Services, w: World)
    requires t.kind == NoCache || t.kind == BustCache
    ensures GetCachedGist(t, rd, svc, w) == Step(Done(None), w)
  {
  }

  /** A cache hit without `gist_check_update` returns the stored record and makes no request at all. */
  lemma PlainHitMakesNoRequest(t: TagState, rd: RemoteData, svc: Services, w: World)
    requires t.kind == Plain && !t.checkUpdate
    requires CacheFileName(svc.md5, t.gist, t.file) in w.entries
    ensures GetCachedGist(t, rd, svc, w)
            == Step(Done(Some(w.entries[CacheFileName(svc.md5, t.gist, t.file)])), w)
  {
  }

  /**
   * With `gist_check_update`, a hit makes one API request; the stored record is
   * served exactly when its `updated` is set and equals the entry's `updated_at` key;
   * otherwise the result is `gist_to_data` of that same reply: its record, its
   * writes and requests, and a raise exactly when it raises.
   */
  lemma RevalidatedHit(t: TagState, rd: RemoteData, svc: Services, w: World, c: Checked)
    requires t.kind == Plain && t.checkUpdate
    requires CacheFileName(svc.md5, t.gist, t.file) in w.entries
    requires GetGistFromApi(t, rd, w).out == Done(Some(c))
    ensures var stored := w.entries[CacheFileName(svc.md5, t.gist, t.file)];
            var w1 := w.(apiCalls := w.apiCalls + 1);
            var s := GetCachedGist(t, rd, svc, w);
            if stored.updated.Some? && stored.updated == c.entry.updatedAt
            then s == Step(Done(Some(stored)), w1)
            else var d := GistToData(t, rd, svc, Some(c), w1);
                 s.world == d.world && (s.out.Done? <==> d.out.Done?)
                 && (d.out.Done? ==> s.out.value == Some(d.out.value))
  {
  }

  /** A truncated entry costs exactly one raw request; an untruncated one none, and its inline content is used. */
  lemma RawRequestsCount(t: TagState, rd: RemoteData, svc: Services, c: Checked, w: World)
    ensures var d := GistToData(t, rd, svc, Some(c), w);
            d.world.rawCalls == w.rawCalls + (if c.entry.truncated then 1 else 0)
            && d.world.apiCalls == w.apiCalls
            && (!c.entry.truncated ==> d.out.Done? && d.out.value.raw == c.entry.content)
  {
  }

  /** `gist_to_data` writes the record under the tag's cache file name, unless the cache is disabled. */
  lemma GistToDataWrites(t: TagState, rd: RemoteData, svc: Services, c: Checked, w: World)
    requires GistToData(t, rd, svc, Some(c), w).out.Done?
    ensures var d := GistToData(t, rd, svc, Some(c), w);
            if t.kind == NoCache
            then d.world.entries == w.entries && d.world.writes == w.writes
            else d.world.entries == w.entries[CacheFileName(svc.md5, t.gist, t.file) := d.out.value]
                 && d.world.writes == w.writes + 1
  {
  }

  /** `gistnocache` never changes the cache, whatever the remote answers. */
  lemma NoCacheNeverWrites(text: string, check: bool, rd: RemoteData, svc: Services, w: World)
    ensures var s := Render(NoCache, text, check, rd, svc, w);
            s.world.entries == w.entries && s.world.writes == w.writes
  {
    var st := RenderState(NoCache, text, check);
    if st.Some? {
      var d := GetDataFromApi(st.value, rd, svc, w);
      var g := GetGistFromApi(st.value, rd, w);
      if g.out.Done? && g.out.value.Some? {
        var raw := RawText(rd, g.out.value.value.entry, g.world);
      }
    }
  }

  /** A successful `gistbust` render always fetches and overwrites the cache entry with the fresh record. */
  lemma BustAlwaysRefreshes(text: string, check: bool, rd: RemoteData, svc: Services, w: World)
    requires RenderState(BustCache, text, check).Some?
    requires var o := Render(BustCache, text, check, rd, svc, w).out; o.Done? && o.value.Some?
    ensures var st := RenderState(BustCache, text, check).value;
            var d := GetDataFromApi(st, rd, svc, w);
            var s := Render(BustCache, text, check, rd, svc, w);
            d.out.Done? && s.world == d.world && s.out.value == Some(HtmlForData(d.out.value))
            && s.world.entries == w.entries[CacheFileName(svc.md5, st.gist, st.file) := d.out.value]
            && s.world.apiCalls == w.apiCalls + 1
  {
    var st := RenderState(BustCache, text, check).value;
    var g := GetGistFromApi(st, rd, w);
    var d := GetDataFromApi(st, rd, svc, w);
    assert d.out.Done?;
    GistToDataWrites(st, rd, svc, g.out.value.value, g.world);
  }

  /** A reply without a `files` key makes the render fail (nil), with no cache write. */
  lemma NoFilesFails(text: string, check: bool, rd: RemoteData, svc: Services, w: World)
    requires RenderState(Plain, text, check).Some?
    requires (RenderState(Plain, text, check).value.gist in rd.gists)
    requires rd.gists[RenderState(Plain, text, check).value.gist].files.None?
            || rd.gists[RenderState(Plain, text, check).value.gist].files == Some([])
    requires CacheFileName(svc.md5, RenderState(Plain, text, check).value.gist,
                           RenderState(Plain, text, check).value.file) !in w.entries
    ensures var s := Render(Plain, text, check, rd, svc, w);
            s.out == Done(None) && s.world.entries == w.entries
  {
  }

  /**
   * The comparison kept literally: when no file entry of the reply has an
   * `updated_at` key (GitHub's have none), revalidation never serves the
   * cache; every checked render rebuilds the record and rewrites the cache.
   */
  lemma RevalidationNeverServesCache(t: TagState, rd: RemoteData, svc: Services, w: World, c: Checked)
    requires t.kind == Plain && t.checkUpdate
    requires CacheFileName(svc.md5, t.gist, t.file) in w.entries
    requires GetGistFromApi(t, rd, w).out == Done(Some(c))
    requires c.entry.updatedAt.None?
    requires GistToData(t, rd, svc, Some(c), w.(apiCalls := w.apiCalls + 1)).out.Done?
    ensures var s := GetCachedGist(t, rd, svc, w);
            s.out.Done? && s.out.value.Some?
            && s.world.writes == w.writes + 1
            && s.out.value.value == GistToData(t, rd, svc, Some(c), w.(apiCalls := w.apiCalls + 1)).out.value
  {
    GistToDataWrites(t, rd, svc, c, w.(apiCalls := w.apiCalls + 1));
  }

  /** The revalidation test as evidently intended: the stored `updated` against the gist's `updated_at`, kept in `updated`. */
  function GetCachedGistFixed(t: TagState, rd: RemoteData, svc: Services, w: World): Step<Option<Record>>
  {
    if t.kind != Plain then Step(Done(None), w)
    else
      var name := CacheFileName(svc.md5, t.gist, t.file);
      if name !in w.entries then Step(Done(None), w)
      else
        var stored := w.entries[name];
        if !t.checkUpdate then Step(Done(Some(stored)), w)
        else
          var check := GetGistFromApi(t, rd, w);
          if check.out.Raised? || check.out.value.None? then Step(Raised, check.world)
          else if stored.updated.Some? && stored.updated == Some(check.out.value.value.updated)
          then Step(Done(Some(stored)), check.world)
          else
            var d := GistToData(t, rd, svc, check.out.value, check.world);
            Step(if d.out.Done? then Done(Some(d.out.value)) else Raised, d.world)
  }

  /**
   * With the intended test, a gist unchanged since it was cached is served
   * from the cache after exactly one API request: no raw request, no write.
   */
  lemma FixedRevalidationServesUnchanged(t: TagState, rd: RemoteData, svc: Services, w: World)
    requires t.kind == Plain && t.checkUpdate
    requires CacheFileName(svc.md5, t.gist, t.file) in w.entries
    requires t.gist in rd.gists && rd.gists[t.gist].files.Some? && rd.gists[t.gist].files.value != []
    requires w.entries[CacheFileName(svc.md5, t.gist, t.file)].updated == rd.gists[t.gist].updatedAt
    requires rd.gists[t.gist].updatedAt.Some?
    ensures GetCachedGistFixed(t, rd, svc, w)
            == Step(Done(Some(w.entries[CacheFileName(svc.md5, t.gist, t.file)])), w.(apiCalls := w.apiCalls + 1))
  {
  }

  /** With the intended test, a gist whose `updated_at` moved on is rebuilt from the same reply. */
  lemma FixedRevalidationRefreshesChanged(t: TagState, rd: RemoteData, svc: Services, w: World, c: Checked)
    requires t.kind == Plain && t.checkUpdate
    requires CacheFileName(svc.md5, t.gist, t.file) in w.entries
    requires GetGistFromApi(t, rd, w).out == Done(Some(c))
    requires w.entries[CacheFileName(svc.md5, t.gist, t.file)].updated != Some(c.updated)
    ensures var s := GetCachedGistFixed(t, rd, svc, w);
            var d := GistToData(t, rd, svc, Some(c), w.(apiCalls := w.apiCalls + 1));
            s.world == d.world && (s.out.Done? <==> d.out.Done?)
            && (d.out.Done? ==> s.out.value == Some(d.out.value))
  {
  }
}
