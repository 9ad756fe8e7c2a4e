/**
 * The feature-availability tags: `{% available BUILD %}…{% endavailable %}`
 * wraps its content in a beta or upcoming template when BUILD is newer than
 * the current release, and `{% availablenotif BUILD %}` inserts a notice.
 * Build numbers come from Sparkle appcasts and are remembered in the site's
 * `availability` configuration after the first lookup.
 */
module Availability {
  import opened Common
  import Text

  // ------------------------------------------------------------------
  // Classification by build number
  // ------------------------------------------------------------------

  /** The three outcomes of the comparison: available now, beta only, or not yet released. */
  datatype Band = Released | Beta | Upcoming

  function Rank(b: Band): nat
  {
    match b
    case Released => 0
    case Beta => 1
    case Upcoming => 2
  }

  /**
   * Both tags compare the minimum version against the release build and
   * then the beta build with `String#>`, that is, character by character.
   */
  function Classify(minVersion: string, release: string, beta: string): Band
  {
    if Text.LexGreater(minVersion, release) then
      if Text.LexGreater(minVersion, beta) then Upcoming else Beta
    else Released
  }

  /** Each band, spelled out as a condition on the comparisons, in both directions. */
  lemma ClassifyBands(m: string, release: string, beta: string)
    ensures Classify(m, release, beta) == Released <==> !Text.LexLess(release, m)
    ensures Classify(m, release, beta) == Beta <==> Text.LexLess(release, m) && !Text.LexLess(beta, m)
    ensures Classify(m, release, beta) == Upcoming <==> Text.LexLess(release, m) && Text.LexLess(beta, m)
  {
  }

  /** A newer release build never moves a feature to a later band. */
  lemma NewerReleaseNeverLater(m: string, release: string, release': string, beta: string)
    requires release == release' || Text.LexLess(release, release')
    ensures Rank(Classify(m, release', beta)) <= Rank(Classify(m, release, beta))
  {
    if Text.LexGreater(m, release') && release != release' {
      Text.LexLessTransitive(release, release', m);
    }
  }

  /** A newer beta build never moves a feature to a later band. */
  lemma NewerBetaNeverLater(m: string, release: string, beta: string, beta': string)
    requires beta == beta' || Text.LexLess(beta, beta')
    ensures Rank(Classify(m, release, beta')) <= Rank(Classify(m, release, beta))
  {
    if Text.LexGreater(m, beta') && beta != beta' {
      Text.LexLessTransitive(beta, beta', m);
    }
  }

  /** A later minimum version never lands in an earlier band. */
  lemma LaterMinimumNeverEarlier(m: string, m': string, release: string, beta: string)
    requires m == m' || Text.LexLess(m, m')
    ensures Rank(Classify(m, release, beta)) <= Rank(Classify(m', release, beta))
  {
    if m != m' {
      if Text.LexGreater(m, release) {
        Text.LexLessTransitive(release, m, m');
      }
      if Text.LexGreater(m, beta) {
        Text.LexLessTransitive(beta, m, m');
      }
    }
  }

  /** The minimum version equal to the release build counts as released. */
  lemma CurrentBuildIsReleased(release: string, beta: string)
    ensures Classify(release, release, beta) == Released
  {
    Text.LexLessIrreflexive(release);
  }

  // ------------------------------------------------------------------
  // Build numbers as numbers
  // ------------------------------------------------------------------

  predicate AllDigits(s: string)
  {
    forall i :: 0 <= i < |s| ==> Text.IsAsciiDigit(s[i])
  }

  /** A build number in decimal without leading zeros, such as `193`. */
  predicate IsDecimal(s: string)
  {
    |s| > 0 && AllDigits(s) && (s[0] != '0' || |s| == 1)
  }

  function Pow10(n: nat): (p: nat)
    ensures p >= 1
  {
    if n == 0 then 1 else 10 * Pow10(n - 1)
  }

  function Digit(c: char): nat
    requires Text.IsAsciiDigit(c)
  {
    c as int - '0' as int
  }

  /** The number a string of digits denotes. */
  function Value(s: string): nat
    requires AllDigits(s)
  {
    if s == [] then 0
    else
      assert AllDigits(s[1..]) by {
        forall i | 0 <= i < |s| - 1 ensures Text.IsAsciiDigit(s[1..][i]) {
          assert s[1..][i] == s[i + 1];
        }
      }
      Digit(s[0]) * Pow10(|s| - 1) + Value(s[1..])
  }

  lemma {:induction false} Pow10Monotone(m: nat, n: nat)
    requires m <= n
    ensures Pow10(m) <= Pow10(n)
  {
    if m < n {
      Pow10Monotone(m, n - 1);
    }
  }

  /** A string of `n` digits denotes less than `10^n`. */
  lemma {:induction false} ValueBelow(s: string)
    requires AllDigits(s)
    ensures Value(s) < Pow10(|s|)
  {
    if s != [] {
      ValueBelow(s[1..]);
      var d, p := Digit(s[0]), Pow10(|s| - 1);
      MulMonotone(d, 9, p);
      assert Value(s) == d * p + Value(s[1..]);
      assert Pow10(|s|) == 10 * p;
    }
  }

  lemma MulMonotone(a: nat, b: nat, p: nat)
    requires a <= b
    ensures a * p <= b * p
  {
  }

  /** A string of `n` digits starting with a non-zero digit denotes at least `10^(n-1)`. */
  lemma ValueAbove(s: string)
    requires AllDigits(s) && |s| > 0 && s[0] != '0'
    ensures Value(s) >= Pow10(|s| - 1)
  {
    var p := Pow10(|s| - 1);
    assert Digit(s[0]) * p >= p;
  }

  /** A smaller leading digit decides, whatever follows it. */
  lemma LeadingDigitDecides(d: nat, e: nat, p: nat, v: nat, w: nat)
    requires d < e && v < p && w < p
    ensures d * p + v < e * p + w
  {
    assert (e - d - 1) * p >= 0;
    assert e * p == d * p + p + (e - d - 1) * p;
  }

  /** Between digit strings of one length, the character order is the numeric order. */
  lemma {:induction false} EqualLengthOrder(a: string, b: string)
    requires AllDigits(a) && AllDigits(b) && |a| == |b|
    ensures Text.LexLess(a, b) <==> Value(a) < Value(b)
  {
    if a != [] {
      var p := Pow10(|a| - 1);
      ValueBelow(a[1..]);
      ValueBelow(b[1..]);
      if a[0] < b[0] {
        LeadingDigitDecides(Digit(a[0]), Digit(b[0]), p, Value(a[1..]), Value(b[1..]));
      } else if b[0] < a[0] {
        LeadingDigitDecides(Digit(b[0]), Digit(a[0]), p, Value(b[1..]), Value(a[1..]));
      } else {
        EqualLengthOrder(a[1..], b[1..]);
      }
    }
  }

  /** The order build numbers were evidently meant to be compared in: longer is newer, then character by character. */
  predicate BuildGreater(a: string, b: string)
  {
    |a| > |b| || (|a| == |b| && Text.LexGreater(a, b))
  }

  /** On decimal build numbers, `BuildGreater` is the numeric order. */
  lemma BuildGreaterIsNumeric(a: string, b: string)
    requires IsDecimal(a) && IsDecimal(b)
    ensures BuildGreater(a, b) <==> Value(a) > Value(b)
  {
    if |a| > |b| {
      ValueAbove(a);
      ValueBelow(b);
      Pow10Monotone(|b|, |a| - 1);
    } else if |b| > |a| {
      ValueAbove(b);
      ValueBelow(a);
      Pow10Monotone(|a|, |b| - 1);
    } else {
      EqualLengthOrder(b, a);
    }
  }

  /** The classification with build numbers compared as numbers. */
  function ClassifyBuilds(minVersion: string, release: string, beta: string): Band
  {
    if BuildGreater(minVersion, release) then
      if BuildGreater(minVersion, beta) then Upcoming else Beta
    else Released
  }

  /** `ClassifyBuilds` sorts decimal build numbers by their value. */
  lemma ClassifyBuildsIsNumeric(m: string, release: string, beta: string)
    requires IsDecimal(m) && IsDecimal(release) && IsDecimal(beta)
    ensures ClassifyBuilds(m, release, beta)
            == if Value(m) > Value(release) then (if Value(m) > Value(beta) then Upcoming else Beta) else Released
  {
    BuildGreaterIsNumeric(m, release);
    BuildGreaterIsNumeric(m, beta);
  }

  /** The comparison as written calls build 100 released when the current release is build 99. */
  lemma TextualOrderMisclassifies()
    ensures Classify("100", "99", "99") == Released
    ensures ClassifyBuilds("100", "99", "99") == Upcoming
  {
  }

  // ------------------------------------------------------------------
  // Templates
  // ------------------------------------------------------------------

  /** One band's ERB templates, by kind: `block`, `inline` and `notification`. */
  type Templates = map<string, string>

  const UpcomingBlock: string :=
    "<div class=\"betafeature\" markdown=1>\n\n> ___Upcoming Feature___: The following feature is currently in development and will be released in the next preview build. If you want to help test new features, you're welcome to [download and run the beta release](/download/).\n{:.alert}\n\n<%=content%>\n\n</div>\n"
  const UpcomingInline: string :=
    "<i class=\"betafeature\"><span title=\"The following feature will be available soon in the preview build (build <%=min_version%>)\" class=\"notification\">(Coming soon)</span> <%=content%></i>"
  const UpcomingNotification: string :=
    "> ___Upcoming Feature___: this feature is currently in development and will be released in the next preview build. If you want to help test new features, you're welcome to [download and run the beta release](/download/).\n{:.alert}\n"
  const BetaBlock: string :=
    "<div class=\"betafeature\" markdown=1>\n\n> ___Beta Feature___: this feature is currently in development and is only available to those using the preview build. If you want to help test new features, feel free to [download and run the beta release](/download/).\n{:.alert}\n\n<%=content%>\n\n</div>\n"
  const BetaInline: string :=
    "<i class=\"betafeature\"><span title=\"The following feature is only available in the preview build (build <%=min_version%>)\" class=\"notification\">(Beta only)</span> <%=content%></i>"
  const BetaNotification: string :=
    "> ___Beta Feature___: this feature is currently in development and is only available to those using the preview build. If you want to help test new features, feel free to [download and run the beta release](/download/).\n{:.alert}\n"

  /** The built-in templates of `get_defaults`. */
  const DefaultUpcoming: Templates :=
    map["block" := UpcomingBlock, "inline" := UpcomingInline, "notification" := UpcomingNotification]
  const DefaultBeta: Templates :=
    map["block" := BetaBlock, "inline" := BetaInline, "notification" := BetaNotification]

  /** The templates of both bands, by band. */
  datatype TemplateSet = TemplateSet(upcoming: Templates, beta: Templates)

  const Defaults: TemplateSet := TemplateSet(DefaultUpcoming, DefaultBeta)

  predicate Complete(t: Templates)
  {
    "block" in t && "inline" in t && "notification" in t
  }

  /** The built-in templates cover every kind of output in both bands. */
  lemma DefaultsComplete()
    ensures Complete(Defaults.upcoming) && Complete(Defaults.beta)
  {
  }

  /** The value the configuration gives for one band under `templates`: a Hash, or anything else (a missing band is nil). */
  datatype BandConfig = BandHash(entries: Templates) | NotAHash

  /** The configuration's `templates` value: missing, a Hash of bands, or some other value. */
  datatype TemplatesConfig = NoTemplates | TemplatesHash(bands: map<string, BandConfig>) | TemplatesOther

  /** Whether `config['templates'][band]` is a Hash. */
  predicate BandGiven(templates: TemplatesConfig, band: string)
  {
    templates.TemplatesHash? && band in templates.bands && templates.bands[band].BandHash?
  }

  /** `defaults[band].merge(config['templates'][band])`: the given entries win; merging anything but a Hash raises. */
  function MergeBand(defaults: Templates, templates: TemplatesConfig, band: string): (r: Outcome<Templates>)
    ensures r.Done? <==> BandGiven(templates, band)
  {
    if BandGiven(templates, band) then Done(defaults + templates.bands[band].entries) else Raised
  }

  /**
   * `merge_templates`, given the result of `get_defaults`: the upcoming
   * templates are merged when `templates` is a Hash, the beta templates
   * when the configuration's top-level `beta` value is one (`betaIsHash`).
   */
  function MergeTemplates(defaults: TemplateSet, templates: TemplatesConfig, betaIsHash: bool): (r: Outcome<TemplateSet>)
    ensures r.Done? && Complete(defaults.upcoming) ==> Complete(r.value.upcoming)
    ensures r.Done? && Complete(defaults.beta) ==> Complete(r.value.beta)
  {
    var upcoming := if templates.TemplatesHash? then MergeBand(defaults.upcoming, templates, "upcoming") else Done(defaults.upcoming);
    var beta := if betaIsHash then MergeBand(defaults.beta, templates, "beta") else Done(defaults.beta);
    if upcoming.Done? && beta.Done? then Done(TemplateSet(upcoming.value, beta.value)) else Raised
  }

  /** When merging raises, and what each merged entry is: a given entry wins, otherwise the default stays. */
  lemma MergeTemplatesEntries(defaults: TemplateSet, templates: TemplatesConfig, betaIsHash: bool)
    ensures var r := MergeTemplates(defaults, templates, betaIsHash);
            r.Raised? <==> (templates.TemplatesHash? && !BandGiven(templates, "upcoming"))
                           || (betaIsHash && !BandGiven(templates, "beta"))
    ensures var r := MergeTemplates(defaults, templates, betaIsHash);
            r.Done? ==>
              (forall k :: k in r.value.upcoming ==>
                 r.value.upcoming[k] == if templates.TemplatesHash? && k in templates.bands["upcoming"].entries
                                        then templates.bands["upcoming"].entries[k] else defaults.upcoming[k])
    ensures var r := MergeTemplates(defaults, templates, betaIsHash);
            r.Done? ==>
              (forall k :: k in r.value.beta ==>
                 r.value.beta[k] == if betaIsHash && k in templates.bands["beta"].entries
                                    then templates.bands["beta"].entries[k] else defaults.beta[k])
  {
  }

  /** As written, beta templates given under `templates` are ignored unless the configuration also has a top-level `beta` Hash. */
  lemma UserBetaTemplatesIgnored(defaults: TemplateSet, up: Templates, beta: Templates)
    requires "inline" in beta && "inline" in defaults.beta && beta["inline"] != defaults.beta["inline"]
    ensures var templates := TemplatesHash(map["upcoming" := BandHash(up), "beta" := BandHash(beta)]);
            var r := MergeTemplates(defaults, templates, false);
            r.Done? && r.value.beta == defaults.beta && r.value.beta["inline"] != beta["inline"]
  {
  }

  /** `merge_templates` with the beta merge guarded by `config['templates']`, as the upcoming one is. */
  function MergeTemplatesFixed(defaults: TemplateSet, templates: TemplatesConfig): (r: Outcome<TemplateSet>)
    ensures r.Done? && Complete(defaults.upcoming) ==> Complete(r.value.upcoming)
    ensures r.Done? && Complete(defaults.beta) ==> Complete(r.value.beta)
  {
    if templates.TemplatesHash? then
      var upcoming := MergeBand(defaults.upcoming, templates, "upcoming");
      var beta := MergeBand(defaults.beta, templates, "beta");
      if upcoming.Done? && beta.Done? then Done(TemplateSet(upcoming.value, beta.value)) else Raised
    else Done(defaults)
  }

  /** With the guard fixed, both bands treat the configuration alike: every given entry is used. */
  lemma FixedMergeHonoursBothBands(defaults: TemplateSet, templates: TemplatesConfig)
    ensures var r := MergeTemplatesFixed(defaults, templates);
            r.Done? <==> !templates.TemplatesHash? || (BandGiven(templates, "upcoming") && BandGiven(templates, "beta"))
    ensures var r := MergeTemplatesFixed(defaults, templates);
            r.Done? && templates.TemplatesHash? ==>
              (forall k :: k in templates.bands["beta"].entries ==> r.value.beta[k] == templates.bands["beta"].entries[k])
              && (forall k :: k in templates.bands["upcoming"].entries ==> r.value.upcoming[k] == templates.bands["upcoming"].entries[k])
    ensures var r := MergeTemplatesFixed(defaults, templates);
            r.Done? && !templates.TemplatesHash? ==> r.value == defaults
  {
  }

  // ------------------------------------------------------------------
  // Build numbers from appcasts
  // ------------------------------------------------------------------

  predicate IsBuildLine(l: string)
  {
    |l| > 0 && forall i :: 0 <= i < |l| ==> Text.IsAsciiDigit(l[i]) || l[i] == '.'
  }

  /** `url.to_s =~ /^[0-9.]+$/`: some line of the text consists of digits and dots. */
  predicate LooksLikeBuild(u: string)
  {
    exists i :: 0 <= i < |Text.Lines(u)| && IsBuildLine(Text.Lines(u)[i])
  }

  /**
   * `get_sparkle_build`: a value that looks like a build number is returned
   * as it is; any other value is the path of an appcast file. `appcasts`
   * holds, for each file that can be read and parsed, the `sparkle:version`
   * of its last item's enclosure; a nil path or any other file raises.
   */
  function SparkleBuild(url: Option<string>, appcasts: map<string, string>): Outcome<string>
  {
    var u := if url.Some? then url.value else "";
    if LooksLikeBuild(u) then Done(u)
    else if url.Some? && url.value in appcasts then Done(appcasts[url.value])
    else Raised
  }

  /** A build number given directly in the configuration is used without reading any file. */
  lemma SparkleBuildNumber(u: string, appcasts: map<string, string>)
    requires IsBuildLine(u)
    ensures SparkleBuild(Some(u), appcasts) == Done(u)
  {
    Text.SplitAllNoNewline(u);
    assert Text.Lines(u)[0] == u;
  }

  /** Any other value is looked up as an appcast path; a missing path raises. */
  lemma SparkleBuildFromAppcast(url: Option<string>, appcasts: map<string, string>)
    ensures url.None? ==> SparkleBuild(url, appcasts) == Raised
    ensures url.Some? && !LooksLikeBuild(url.value) ==>
              SparkleBuild(url, appcasts) == if url.value in appcasts then Done(appcasts[url.value]) else Raised
  {
    Text.SplitAllNoNewline("");
  }

  /** What is remembered between renders: the two builds, and the number of appcast lookups made so far. */
  datatype Memo = Memo(release: Option<string>, beta: Option<string>, lookups: nat)

  /** The site's `availability` configuration that the tags read, with the templates of `get_defaults`. */
  datatype Env = Env(defaults: TemplateSet, templates: TemplatesConfig, betaIsHash: bool, appcast: Option<map<string, string>>,
                     appcasts: map<string, string>)

  /** `config['appcast'][key]`: raises when there is no `appcast` section, nil when it lacks the key. */
  function AppcastEntry(appcast: Option<map<string, string>>, key: string): (r: Outcome<Option<string>>)
    ensures r.Raised? <==> appcast.None?
  {
    if appcast.None? then Raised
    else if key in appcast.value then Done(Some(appcast.value[key]))
    else Done(None)
  }

  /**
   * One remembered build (availability.rb lines 222-227 for the release): the stored value
   * if there is one, otherwise a lookup whose result is stored. Gives the
   * build, the new stored value and the number of lookups made.
   */
  function BuildOf(stored: Option<string>, env: Env, key: string): (Outcome<string>, Option<string>, nat)
  {
    if stored.Some? then (Done(stored.value), stored, 0)
    else
      match AppcastEntry(env.appcast, key)
      case Raised => (Raised, stored, 0)
      case Done(url) =>
        var b := SparkleBuild(url, env.appcasts);
        (b, if b.Done? then Some(b.value) else stored, 1)
  }

  /** The release build, then the beta build; a failure raises and keeps what was stored until then. */
  function Builds(env: Env, memo: Memo): (Outcome<(string, string)>, Memo)
  {
    var (r, release, n) := BuildOf(memo.release, env, "release");
    var memo1 := memo.(release := release, lookups := memo.lookups + n);
    if r.Raised? then (Raised, memo1)
    else
      var (b, beta, k) := BuildOf(memo.beta, env, "beta");
      var memo2 := memo1.(beta := beta, lookups := memo1.lookups + k);
      if b.Raised? then (Raised, memo2) else (Done((r.value, b.value)), memo2)
  }

  /** Stored builds are never replaced, at most two lookups are made, and builds that were used are stored. */
  lemma BuildsRemembered(env: Env, memo: Memo)
    ensures var (r, memo') := Builds(env, memo);
            (memo.release.Some? ==> memo'.release == memo.release)
            && (memo.beta.Some? ==> memo'.beta == memo.beta)
            && memo.lookups <= memo'.lookups <= memo.lookups + 2
            && (r.Done? ==> memo'.release == Some(r.value.0) && memo'.beta == Some(r.value.1))
  {
  }

  /** Once both builds are stored, no appcast is read again and the stored builds are used. */
  lemma StoredBuildsReused(env: Env, memo: Memo)
    requires memo.release.Some? && memo.beta.Some?
    ensures Builds(env, memo) == (Done((memo.release.value, memo.beta.value)), memo)
  {
  }

  /** After one successful lookup, a second render sees the same builds without reading any appcast. */
  lemma LookupsHappenOnce(env: Env, memo: Memo)
    requires Builds(env, memo).0.Done?
    ensures var (r, memo') := Builds(env, memo);
            Builds(env, memo') == (r, memo')
  {
    BuildsRemembered(env, memo);
  }

  // ------------------------------------------------------------------
  // Rendering
  // ------------------------------------------------------------------

  /**
   * A tag's result: the text itself, or an ERB template evaluated with local
   * variables `content` (absent for the notification tag) and `min_version`.
   */
  datatype Output = Verbatim(text: string) | Filled(template: string, content: Option<string>, minVersion: string)

  /** `content.split(/\n/).length > 1`. */
  predicate Multiline(content: string)
  {
    |Text.Split(content, "\n")| > 1
  }

  /** Content spans several lines exactly when a line feed is followed, somewhere later, by something else. */
  lemma MultilineIff(content: string)
    ensures Multiline(content) <==>
            exists i, j :: 0 <= i < j < |content| && content[i] == '\n' && content[j] != '\n'
  {
    if '\n' in content {
      var i := Text.IndexOf(content, '\n');
      var a := content[..i];
      var b := content[i + 1..];
      assert content == a + "\n" + b;
      Text.SplitAllAtNewline(a, b);
      Text.DropTrailingEmptyCons(a, Text.SplitAll(b, "\n"));
      Text.SplitAllEmptyIffNewlines(b);
      var rest := Text.DropTrailingEmpty(Text.SplitAll(b, "\n"));
      if rest == [] {
        Text.DropTrailingEmptyCons(a, []);
        forall i', j' | 0 <= i' < j' < |content| && content[i'] == '\n'
          ensures content[j'] == '\n'
        {
          assert i <= i';
          assert content[j'] == b[j' - i - 1];
        }
      } else {
        assert exists k :: 0 <= k < |b| && b[k] != '\n';
        var k :| 0 <= k < |b| && b[k] != '\n';
        assert content[i + 1 + k] == b[k];
      }
    } else {
      Text.SplitAllNoNewline(content);
      assert forall i :: 0 <= i < |content| ==> content[i] != '\n' by {
        forall i | 0 <= i < |content| ensures content[i] != '\n' {
          assert content[i] in content;
        }
      }
    }
  }

  /** `ERB.new(templates[band][kind])` filled in; a template missing from the Hash is nil, which ERB refuses. */
  function Fill(t: Templates, kind: string, content: Option<string>, minVersion: string): (r: Outcome<Output>)
    ensures r.Done? <==> kind in t
  {
    if kind in t then Done(Filled(t[kind], content, minVersion)) else Raised
  }

  /** What the block tag yields for a band (availability.rb lines 236-256); `header` is `append_header`. */
  function BlockOutput(t: TemplateSet, band: Band, minVersion: string, content: string,
                       header: (string, string) -> string): Outcome<Output>
  {
    match band
    case Released => Done(Verbatim(content))
    case Beta =>
      if Multiline(content) then Fill(t.beta, "block", Some(header(content, "Beta")), minVersion)
      else Fill(t.beta, "inline", Some(content), minVersion)
    case Upcoming =>
      if Multiline(content) then Fill(t.upcoming, "block", Some(header(content, "Upcoming")), minVersion)
      else Fill(t.upcoming, "inline", Some(content), minVersion)
  }

  /** `FeatureVersionBlockTag#render`, with the memo before and after. */
  function BlockRender(minVersion: string, content: string, env: Env, memo: Memo,
                       header: (string, string) -> string): (Outcome<Output>, Memo)
  {
    match MergeTemplates(env.defaults, env.templates, env.betaIsHash)
    case Raised => (Raised, memo)
    case Done(t) =>
      var (b, memo') := Builds(env, memo);
      if b.Raised? then (Raised, memo')
      else (BlockOutput(t, Classify(minVersion, b.value.0, b.value.1), minVersion, content, header), memo')
  }

  /** What the notification tag yields for a band (availability.rb lines 294-303). */
  function NoticeOutput(t: TemplateSet, band: Band, minVersion: string): Outcome<Output>
  {
    match band
    case Released => Done(Verbatim(""))
    case Beta => Fill(t.beta, "notification", None, minVersion)
    case Upcoming => Fill(t.upcoming, "notification", None, minVersion)
  }

  /** `FeatureVersionTag#render`, with the memo before and after. */
  function NoticeRender(minVersion: string, env: Env, memo: Memo): (Outcome<Output>, Memo)
  {
    match MergeTemplates(env.defaults, env.templates, env.betaIsHash)
    case Raised => (Raised, memo)
    case Done(t) =>
      var (b, memo') := Builds(env, memo);
      if b.Raised? then (Raised, memo')
      else (NoticeOutput(t, Classify(minVersion, b.value.0, b.value.1), minVersion), memo')
  }

  /**
   * With a complete set of defaults, rendering raises only when merging the
   * templates or looking up a build does; a failed merge reads no appcast.
   */
  lemma RenderFailures(minVersion: string, content: string, env: Env, memo: Memo,
                       header: (string, string) -> string)
    requires Complete(env.defaults.upcoming) && Complete(env.defaults.beta)
    ensures var merged := MergeTemplates(env.defaults, env.templates, env.betaIsHash);
            var (r, memo') := BlockRender(minVersion, content, env, memo, header);
            (r.Raised? <==> merged.Raised? || Builds(env, memo).0.Raised?)
            && (merged.Raised? ==> memo' == memo)
            && (merged.Done? ==> memo' == Builds(env, memo).1)
    ensures var merged := MergeTemplates(env.defaults, env.templates, env.betaIsHash);
            var (r, memo') := NoticeRender(minVersion, env, memo);
            (r.Raised? <==> merged.Raised? || Builds(env, memo).0.Raised?)
            && (merged.Raised? ==> memo' == memo)
            && (merged.Done? ==> memo' == Builds(env, memo).1)
  {
  }

  /**
   * The block tag leaves released content untouched; otherwise it fills the
   * block template of the band for content with a later line and the inline
   * template for the rest, passing the minimum version along.
   */
  lemma BlockRenderShape(minVersion: string, content: string, env: Env, memo: Memo,
                         header: (string, string) -> string)
    requires BlockRender(minVersion, content, env, memo, header).0.Done?
    ensures var out := BlockRender(minVersion, content, env, memo, header).0.value;
            var t := MergeTemplates(env.defaults, env.templates, env.betaIsHash).value;
            var (release, beta) := Builds(env, memo).0.value;
            var band := Classify(minVersion, release, beta);
            var bt := if band == Beta then t.beta else t.upcoming;
            var later := exists i, j :: 0 <= i < j < |content| && content[i] == '\n' && content[j] != '\n';
            (band == Released <==> out == Verbatim(content))
            && (band != Released && later ==>
                  "block" in bt && out == Filled(bt["block"], Some(header(content, if band == Beta then "Beta" else "Upcoming")), minVersion))
            && (band != Released && !later ==>
                  "inline" in bt && out == Filled(bt["inline"], Some(content), minVersion))
  {
    MultilineIff(content);
  }

  /** The notification tag yields nothing for released features, else its band's notification template without content. */
  lemma NoticeRenderShape(minVersion: string, env: Env, memo: Memo)
    requires NoticeRender(minVersion, env, memo).0.Done?
    ensures var out := NoticeRender(minVersion, env, memo).0.value;
            var t := MergeTemplates(env.defaults, env.templates, env.betaIsHash).value;
            var (release, beta) := Builds(env, memo).0.value;
            var band := Classify(minVersion, release, beta);
            (band == Released <==> out == Verbatim(""))
            && (band == Beta ==> "notification" in t.beta && out == Filled(t.beta["notification"], None, minVersion))
            && (band == Upcoming ==> "notification" in t.upcoming && out == Filled(t.upcoming["notification"], None, minVersion))
  {
  }

  // ------------------------------------------------------------------
  // The tags' minimum versions
  // ------------------------------------------------------------------

  /** The notification tag keeps its markup as it is; Liquid's markup includes the spaces before `%}`. */
  lemma UnstrippedMarkupMisclassifies()
    ensures Classify("119 ", "119", "200") == Beta
    ensures Classify(Text.Strip("119 "), "119", "200") == Released
  {
    assert Text.Strip("119 ") == "119" by {
      Text.StripAppend("119", " ");
      Text.StripOfTrimmed("119");
      assert "119" + " " == "119 ";
    }
    Text.LexLessIrreflexive("119");
    assert Text.LexLess("", " ");
    assert Text.LexLess("119", "119 ") by {
      assert "119"[1..] == "19" && "119 "[1..] == "19 ";
      assert "19"[1..] == "9" && "19 "[1..] == "9 ";
      assert "9"[1..] == "" && "9 "[1..] == " ";
    }
  }

  /** The notification tag's minimum version with the markup stripped, as the block tag does. */
  function NoticeVersionFixed(markup: string): string
  {
    Text.Strip(markup)
  }

  /** With the markup stripped, spaces before `%}` no longer change the band. */
  lemma FixedNoticeIgnoresTrailingSpace(markup: string, ws: string, release: string, beta: string)
    requires Text.AllStripChars(ws)
    ensures Classify(NoticeVersionFixed(markup + ws), release, beta) == Classify(NoticeVersionFixed(markup), release, beta)
  {
    Text.StripAppend(markup, ws);
  }

  // ------------------------------------------------------------------
  // The configuration object and the tags
  // ------------------------------------------------------------------

  /** The site's `availability` Hash; the tags store the builds they look up in it. */
  class AvailabilityConfig {
    /** The result of `get_defaults`. */
    const defaults: TemplateSet
    const templates: TemplatesConfig
    /** Whether the top-level `beta` value of the section is a Hash. */
    const betaIsHash: bool
    const appcast: Option<map<string, string>>
    /** The appcast files as `get_sparkle_build` reads them. */
    const appcasts: map<string, string>
    /** `config[:release_build]`. */
    var releaseBuild: Option<string>
    /** `config[:beta_build]`. */
    var betaBuild: Option<string>
    ghost var lookups: nat

    constructor (templates: TemplatesConfig, betaIsHash: bool, appcast: Option<map<string, string>>,
                 appcasts: map<string, string>)
      ensures defaults == Defaults
      ensures this.templates == templates && this.betaIsHash == betaIsHash
      ensures this.appcast == appcast && this.appcasts == appcasts
      ensures releaseBuild == None && betaBuild == None && lookups == 0
    {
      defaults := Defaults;
      this.templates := templates;
      this.betaIsHash := betaIsHash;
      this.appcast := appcast;
      this.appcasts := appcasts;
      releaseBuild := None;
      betaBuild := None;
      lookups := 0;
    }

    function Section(): Env
    {
      Env(defaults, templates, betaIsHash, appcast, appcasts)
    }

    ghost function Stored(): Memo
      reads this
    {
      Memo(releaseBuild, betaBuild, lookups)
    }

    /** One call of `get_sparkle_build`, counted. */
    method ReadBuild(url: Option<string>) returns (r: Outcome<string>)
      modifies this
      ensures r == SparkleBuild(url, appcasts)
      ensures lookups == old(lookups) + 1
      ensures releaseBuild == old(releaseBuild) && betaBuild == old(betaBuild)
    {
      var u := if url.Some? then url.value else "";
      if LooksLikeBuild(u) {
        r := Done(u);
      } else if url.Some? && url.value in appcasts {
        r := Done(appcasts[url.value]);
      } else {
        r := Raised;
      }
      lookups := lookups + 1;
    }

    /** availability.rb lines 222-234: the release and beta builds, looked up once and then stored. */
    method CurrentBuilds() returns (r: Outcome<(string, string)>)
      modifies this
      ensures (r, Stored()) == Builds(Section(), old(Stored()))
    {
      var release: string;
      if releaseBuild.Some? {
        release := releaseBuild.value;
      } else {
        var url := AppcastEntry(appcast, "release");
        if url.Raised? {
          return Raised;
        }
        var b := ReadBuild(url.value);
        if b.Raised? {
          return Raised;
        }
        release := b.value;
        releaseBuild := Some(release);
      }
      var beta: string;
      if betaBuild.Some? {
        beta := betaBuild.value;
      } else {
        var url := AppcastEntry(appcast, "beta");
        if url.Raised? {
          return Raised;
        }
        var b := ReadBuild(url.value);
        if b.Raised? {
          return Raised;
        }
        beta := b.value;
        betaBuild := Some(beta);
      }
      r := Done((release, beta));
    }
  }

  /** `{% available BUILD %}…{% endavailable %}`. */
  class FeatureVersionBlockTag {
    const minVersion: string

    constructor (markup: string)
      ensures minVersion == Text.Strip(markup)
    {
      minVersion := Text.Strip(markup);
    }

    /** `render`: `config` is the site's `availability` section (null when missing), `header` is `append_header`. */
    method Render(content: string, config: AvailabilityConfig?, header: (string, string) -> string)
      returns (r: Outcome<Output>)
      modifies config
      ensures config == null ==> r == Raised
      ensures config != null ==> (r, config.Stored()) == BlockRender(minVersion, content, config.Section(), old(config.Stored()), header)
    {
      if config == null {
        return Raised;
      }
      var multiline := Multiline(content);
      var merged := MergeTemplates(config.defaults, config.templates, config.betaIsHash);
      if merged.Raised? {
        return Raised;
      }
      var templates := merged.value;
      var builds := config.CurrentBuilds();
      if builds.Raised? {
        return Raised;
      }
      var (release, beta) := builds.value;
      if Text.LexGreater(minVersion, release) {
        var band := if Text.LexGreater(minVersion, beta) then templates.upcoming else templates.beta;
        var mark := if Text.LexGreater(minVersion, beta) then "Upcoming" else "Beta";
        var kind := if multiline then "block" else "inline";
        if kind !in band {
          return Raised;
        }
        var body := if multiline then header(content, mark) else content;
        r := Done(Filled(band[kind], Some(body), minVersion));
      } else {
        r := Done(Verbatim(content));
      }
    }
  }

  /** `{% availablenotif BUILD %}`. */
  class FeatureVersionTag {
    const minVersion: string

    /** The markup is kept as it is, trailing spaces included. */
    constructor (markup: string)
      ensures minVersion == markup
    {
      minVersion := markup;
    }

    method Render(config: AvailabilityConfig?) returns (r: Outcome<Output>)
      modifies config
      ensures config == null ==> r == Raised
      ensures config != null ==> (r, config.Stored()) == NoticeRender(minVersion, config.Section(), old(config.Stored()))
    {
      if config == null {
        return Raised;
      }
      var merged := MergeTemplates(config.defaults, config.templates, config.betaIsHash);
      if merged.Raised? {
        return Raised;
      }
      var templates := merged.value;
      var builds := config.CurrentBuilds();
      if builds.Raised? {
        return Raised;
      }
      var (release, beta) := builds.value;
      if Text.LexGreater(minVersion, release) {
        var band := if Text.LexGreater(minVersion, beta) then templates.upcoming else templates.beta;
        if "notification" !in band {
          return Raised;
        }
        r := Done(Filled(band["notification"], None, minVersion));
      } else {
        r := Done(Verbatim(""));
      }
    }
  }
}
