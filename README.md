# Verified model of seven Jekyll Liquid tags

This project models the logic of seven Liquid tags from a collection of Jekyll
plugins, written in Ruby. It proves what each tag computes from its markup
and the site configuration.

| tag | Ruby file | Dafny module (file) |
|---|---|---|
| `gist`, `gistnocache`, `gistbust` | GistTag/gist_tag.rb | `Gist` (gist.dfy), `GistObjects` (gist_objects.dfy) |
| `kbd` | KBDTag/kbd_tag.rb | `Kbd` (kbd.dfy) |
| `available`, `availablenotif` | Availability/availability.rb | `Availability` (availability.dfy) |
| `iterm` | iTerm/iterm.rb | `Iterm` (iterm.dfy) |
| `biner` | biner/biner.rb | `Biner` (biner.dfy) |
| `donate` | Donation/donate_tag.rb | `Donate` (donate.dfy) |
| `audio` | HTML5Audio/audio_tag.rb | `Audio` (audio.dfy) |

Three shared modules sit under them:

- `Common` (common.dfy) holds `Option`, the `Outcome` of an operation that may raise a Ruby exception, and `MapSeq`, which is `map` over a sequence.
- `Text` (text.dfy) models the Ruby `String` methods the tags call: `strip`, `chomp`, `split` (which drops trailing empty pieces), `String#<`, ASCII case mapping and single-character `gsub`.
- `Escape` (escape.dfy) models UTF-8 encoding, `CGI.escape` / `URI.encode_www_form_component` and `CGI.escapeHTML`, each with a decoder and a round-trip proof.

## How the model is built

Each file takes the form of its Ruby code.

- **Regular expressions** are written out as deterministic scanners. Lemmas pin down what each scanner finds, such as the leftmost match, the greedy run or the first line.
- **Pure helpers** become functions.
- **Objects whose fields a render updates** become classes: `DonateTag`, `AudioTag`, the availability configuration and the gist tag with its cache and remote.
- **Loops** become methods with invariants, proved against the functions. Examples are the kbd character and segment loops, the iTerm `scan` loop and the gist file selection.

**Gist tag**
- The GitHub API and raw-file requests go to a `Remote` object: a map from gist ids to their JSON replies plus counters of requests made.
- The file cache is a `CacheStore` holding a map from file names to records plus a write counter.
- Together these state properties such as "a plain cache hit makes no request" and "`gistnocache` never writes".

**Behaviour that follows the code rather than its comments**
- The iTerm link is `iterm2:/command?c=…`, with one slash, as iterm.rb line 71 builds it. The header comment at line 22 shows two.
- A one-character kbd key is upcased before the name lookup, whose patterns match after downcasing, so `{% kbd u %}` renders the Up Arrow (`^up?$`, KBDTag/kbd_tag.rb:182) and `righ` the Right Arrow (`^right?$`, line 178); the name table in the model holds `u` and `righ` for this reason.
- In production, the audio tag prepends `cdn_url` to its stored sources on every render, so the prefix accumulates (`Audio.CdnAccumulates`).
- A donate text that is empty once its quotes are removed (markup `""`) is kept. In Ruby `""` is truthy, so `||=` does not replace it.
- The audio title is set whenever blanks follow the song, even when nothing else does.
- gist_tag.rb line 93 is kept literally (see Findings).
- The gist render can never produce its "Error loading gist" message, and the model reflects this. `gist_to_data` either returns a Hash, which is truthy, or raises on a nil reply, which the blanket `rescue` turns into nil.

**Findings**
- Five defects in the source are logged under Findings.
- The tag classes model the code as written.
- Each corrected definition sits beside the as-written one, with its intended property proved.

## Model

| member | source | states |
|---|---|---|
| Gist.Clean | GistTag/gist_tag.rb:108-110 | the cleaned name is no longer than the input and holds only `[a-zA-Z0-9\-_.]` characters; a single character is kept exactly when it is one of them |
| Gist.CleanAppend | GistTag/gist_tag.rb:108-110 | cleaning works piece by piece, so the allowed characters of mixed input survive in order: `a/b` cleans to `ab` |
| Gist.CleanKeepsAllowed | GistTag/gist_tag.rb:108-110 | a name made only of allowed characters comes through cleaning unchanged |
| Gist.CleanIdempotent | GistTag/gist_tag.rb:108-110 | cleaning a cleaned name changes nothing |
| Gist.CacheFileNameHasNoSlash | GistTag/gist_tag.rb:107-113 | the cache file name is a single path component whenever the digest holds no `/` |
| Gist.CacheFileNameOnlyCleaned | GistTag/gist_tag.rb:107-113 | two tags whose gist ids and file names clean to the same strings share a cache file |
| Gist.SplitAtFirstDash | GistTag/gist_tag.rb:112 | a name `a-x` where `a` has no `-` fixes both `a` and `x` |
| Gist.NamePartsDetermined | GistTag/gist_tag.rb:112 | a name `a-c-m.cachedata` with no `-` in `a` and a digest of known length fixes `a` and `c` |
| Gist.CacheFileNameInjective | GistTag/gist_tag.rb:107-113 | different cleaned (gist, file) pairs never share a cache file, given a dash-free gist id and digests of equal length |
| Gist.ParseMarkup | GistTag/gist_tag.rb:50-52 | there is no match exactly when the markup holds no letter or digit; a match's gist id is a non-empty run of letters and digits |
| Gist.FirstAlnum | GistTag/gist_tag.rb:50 | the first letter or digit at or after a position: every character skipped is neither |
| Gist.FirstAlnumAt | GistTag/gist_tag.rb:50 | the scan stops exactly at the first letter or digit |
| Text.AlnumRunEndAt | GistTag/gist_tag.rb:50 | the run of letters and digits ends exactly at the first character that is neither |
| Gist.ParseMarkupOfRun | GistTag/gist_tag.rb:50-52 | the gist id is the leftmost maximal run of letters and digits; the file is the stripped rest of that line when a space and a character other than a line feed follow the run, and "" otherwise |
| Gist.LookupFile | GistTag/gist_tag.rb:160-161 | `files[name]` is found exactly when the hash has that key, and it is an entry stored under that key |
| Gist.SelectFile | GistTag/gist_tag.rb:153-166 | no `files` key gives nil; a non-empty name that is a key selects that file, otherwise the first one; an empty hash or a missing `updated_at` raises; the gist's `updated_at` is stored in `updated` |
| Gist.FetchReply | GistTag/gist_tag.rb:137-151 | one API request is counted; it succeeds exactly when the remote knows the gist, with that reply |
| Gist.GetGistFromApi | GistTag/gist_tag.rb:136-167 | exactly one API request is made, and nothing else changes |
| Gist.RawText | GistTag/gist_tag.rb:176-180 | an untruncated entry gives its inline content with no request; a truncated one costs one raw request and gives that URL's body, or raises when there is none |
| Gist.BuildRecord | GistTag/gist_tag.rb:169-191 | the record carries the gist id, the selected file's `updated`, name, raw URL and raw text; a language is downcased and highlighted; no language gives `lang` "" and the stripped, `<`-escaped, tableized source |
| Gist.LinkRoundTrip | GistTag/gist_tag.rb:68-74 | after the name, a raw URL without `"` and any highlighted source read back from the figure unchanged |
| Gist.FigureRoundTrip | GistTag/gist_tag.rb:68-74 | `html_for_data` loses nothing: a name without `<`, a raw URL without `"` and the highlighted source all read back unchanged |
| Gist.CacheSkippedWhenDisabledOrBust | GistTag/gist_tag.rb:84-86 | `gistnocache` and `gistbust` read no cache: nil, with no request and no write |
| Gist.PlainHitMakesNoRequest | GistTag/gist_tag.rb:87-101 | a cache hit without `gist_check_update` returns the stored record with no request and no write |
| Gist.RevalidatedHit | GistTag/gist_tag.rb:91-98 | with `gist_check_update`, a hit makes one API request; it serves the stored record exactly when its `updated` is set and equals the entry's `updated_at`, and otherwise returns exactly the record, world and failure of `gist_to_data` run on that same reply |
| Gist.RawRequestsCount | GistTag/gist_tag.rb:169-194 | `gist_to_data` makes one raw request for a truncated file and none otherwise, and never calls the API |
| Gist.GistToDataWrites | GistTag/gist_tag.rb:192 | a successful `gist_to_data` writes its record under the tag's cache file name exactly once, unless the cache is disabled, when nothing is written |
| Gist.NoCacheNeverWrites | GistTag/gist_tag.rb:197-202 | a `gistnocache` render never changes the cache, whatever the remote answers |
| Gist.BustAlwaysRefreshes | GistTag/gist_tag.rb:204-209 | a successful `gistbust` render makes one API request, overwrites the cache entry with the fresh record, and renders that record |
| Gist.NoFilesFails | GistTag/gist_tag.rb:153-156 | with nothing cached, a reply without files makes the render fail (nil) and leaves the cache as it was |
| Gist.RevalidationNeverServesCache | GistTag/gist_tag.rb:93 | as written: when the file entry has no `updated_at` key of its own, a revalidated hit never serves the cache and always rewrites it |
| Gist.FixedRevalidationServesUnchanged | GistTag/gist_tag.rb:91-98 | corrected: a gist unchanged since it was cached is served from the cache after one API request, with no raw request and no write |
| Gist.FixedRevalidationRefreshesChanged | GistTag/gist_tag.rb:91-98 | corrected: a gist whose `updated_at` moved on gets exactly the record, world and failure of `gist_to_data` run on the same reply after the one API request |
| GistObjects.Remote.constructor | GistTag/gist_tag.rb:115-151 | the remote answers from the given replies and raw bodies, and no request has been made yet |
| GistObjects.Remote.FetchReply | GistTag/gist_tag.rb:137-151 | counts one API request, and returns the gist's reply or raises when there is none |
| GistObjects.Remote.FetchRaw | GistTag/gist_tag.rb:115-129 | counts one raw request, and returns the URL's body or raises when there is none |
| GistObjects.CacheStore.constructor | GistTag/gist_tag.rb:43-44 | the cache starts with the given entries and no writes |
| GistObjects.CacheStore.Put | GistTag/gist_tag.rb:76-81 | the entry under the name is replaced by the record, and one write is counted |
| GistObjects.GistTag.constructor | GistTag/gist_tag.rb:34-45 | the tag keeps its kind, markup and collaborators; the gist id and file are empty and `check_update` is off |
| GistObjects.GistTag.CacheData | GistTag/gist_tag.rb:76-81 | writes the record under the tag's cache file name, as `Gist.Put` does |
| GistObjects.GistTag.GetGistFromApi | GistTag/gist_tag.rb:136-167 | result and new remote state are those of `Gist.GetGistFromApi` |
| GistObjects.GistTag.GistToData | GistTag/gist_tag.rb:169-194 | result, cache and request counts are those of `Gist.GistToData` |
| GistObjects.GistTag.GetDataFromApi | GistTag/gist_tag.rb:131-134 | result, cache and request counts are those of `Gist.GetDataFromApi` |
| GistObjects.GistTag.GetCachedGist | GistTag/gist_tag.rb:83-105 | result, cache and request counts are those of `Gist.GetCachedGist` |
| GistObjects.GistTag.Render | GistTag/gist_tag.rb:47-66 | output, cache and request counts are those of `Gist.Render`; the tag keeps the parsed gist id, file and `check_update` |
| Kbd.Dehyphen | KBDTag/kbd_tag.rb:30-32 | exactly the hyphens with a non-space on both sides become spaces; the length and every other character are kept |
| Kbd.DehyphenIdempotent | KBDTag/kbd_tag.rb:32 | a second pass of the hyphen rule changes nothing |
| Kbd.DehyphenNoHyphen | KBDTag/kbd_tag.rb:32 | text without a hyphen is left alone |
| Kbd.RunEnd | KBDTag/kbd_tag.rb:33-37 | the end of the `\w` run at a position: every character before it is a word character and the one at it is not |
| Kbd.RunEndUnique | KBDTag/kbd_tag.rb:33-37 | any position with that property is the run's end |
| Kbd.RewriteNoWord | KBDTag/kbd_tag.rb:33-37 | text with no word character is not touched by a `\b(...)\b` substitution |
| Kbd.RewriteWord | KBDTag/kbd_tag.rb:33-37 | a whole word is replaced as the table says, ignoring case |
| Kbd.RewriteAppend | KBDTag/kbd_tag.rb:33-37 | the substitution works piece by piece across a boundary with a non-word character |
| Kbd.RewriteAppendAtOther | KBDTag/kbd_tag.rb:33-37 | the piecewise step when the text starts with a non-word character |
| Kbd.RewriteAppendAtRun | KBDTag/kbd_tag.rb:33-37 | the piecewise step when the text starts with a word |
| Kbd.RunEndOfAppend | KBDTag/kbd_tag.rb:33-37 | appending text after a word boundary leaves the first word's end where it was |
| Kbd.RewriteEmptyTable | KBDTag/kbd_tag.rb:33-37 | an empty table changes nothing |
| Kbd.RewriteThenRewrite | KBDTag/kbd_tag.rb:33-37 | one row's substitution followed by the rest's equals one substitution with the whole table, since the replacements are not words |
| Kbd.LookupCons | KBDTag/kbd_tag.rb:33-37 | the first row whose words hold the downcased word decides its replacement |
| Kbd.RewriteThenRewriteWord | KBDTag/kbd_tag.rb:33-37 | the step of the two-pass equality for a leading word |
| Kbd.PassesAreOneRewrite | KBDTag/kbd_tag.rb:33-37 | the five `gsub!` calls in sequence amount to one lookup per whole word |
| Kbd.CleanComboWordByWord | KBDTag/kbd_tag.rb:29-39 | `clean_combo` is the hyphen rule followed by one word-by-word lookup in the modifier word table |
| Kbd.CleanComboOfWord | KBDTag/kbd_tag.rb:33-37 | a single word becomes its modifier shortcut (`@ ^ ~ $ *`) or stays as it is |
| Kbd.CleanComboSeparator | KBDTag/kbd_tag.rb:29-39 | without hyphens, text on either side of a non-word character is cleaned independently |
| Kbd.RewriteAround | KBDTag/kbd_tag.rb:33-37 | a substitution splits around any non-word character |
| Kbd.ToMod | KBDTag/kbd_tag.rb:90-99 | a shortcut character becomes one of the five modifiers; anything else is returned unchanged |
| Kbd.ModsOf | KBDTag/kbd_tag.rb:215-226 | every collected modifier is one of the five modifiers |
| Kbd.KeyOf | KBDTag/kbd_tag.rb:215-226 | the key holds no space, no modifier symbol and no shortcut character |
| Kbd.KeyOfAppend | KBDTag/kbd_tag.rb:215-226 | the key is built piece by piece, keeping order |
| Kbd.ModsOfAppend | KBDTag/kbd_tag.rb:215-226 | the modifiers are collected piece by piece, keeping order |
| Kbd.KeyOfPlain | KBDTag/kbd_tag.rb:215-226 | text with no space and no modifier character is all key and yields no modifier |
| Kbd.SplitModifiers | KBDTag/kbd_tag.rb:215-226 | the character loop returns the modifiers and the key that `ModsOf` and `KeyOf` describe |
| Kbd.KeepMembers | KBDTag/kbd_tag.rb:247-251 | keeps exactly the members of the order that occur in the list, in increasing rank |
| Kbd.SortMods | KBDTag/kbd_tag.rb:247-251 | the result holds exactly the known modifiers of the input, each once, in the order Fn, Control, Option, Shift, Command |
| Kbd.Paired | KBDTag/kbd_tag.rb:68-75 | a character is found exactly when some pair starts with it, and the answer is that pair's partner |
| Kbd.LowerToUpper | KBDTag/kbd_tag.rb:43-76 | a one-character unshifted symbol becomes its own partner in the `doubles` table, which `upper?` accepts; anything else is unchanged |
| Kbd.DoublesKeysDistinct | KBDTag/kbd_tag.rb:44-66 | no unshifted character appears twice in the `doubles` table, so its shifted partner is determined |
| Kbd.LowerToUpperIdempotent | KBDTag/kbd_tag.rb:43-76 | shifting a shifted key changes nothing |
| Kbd.ShiftedAreUpper | KBDTag/kbd_tag.rb:43-81 | every shifted character of the `doubles` table is one `upper?` accepts |
| Kbd.UnshiftedAreNotUpper | KBDTag/kbd_tag.rb:43-81 | no unshifted character of the `doubles` table is one `upper?` accepts |
| Kbd.UnclearEntry | KBDTag/kbd_tag.rb:139-150 | every spelled-out name ends with its own character in parentheses |
| Kbd.ClarifiedNamesCharacter | KBDTag/kbd_tag.rb:138-152 | `clarify_characters` changes only a single easily confused character, into a name ending with that character in parentheses |
| Kbd.TitleOfQuotedKey | KBDTag/kbd_tag.rb:237-241 | the title kept for a one-character key is `clarify_characters` of the quoted key |
| Kbd.DoubleQuoteKeyKept | KBDTag/kbd_tag.rb:235-236 | a `"` key is neither shifted nor upper-cased |
| Kbd.StoredTitle | KBDTag/kbd_tag.rb:229-241 | the stored title of a one-character key is `clarify_characters` of the stored key, so a `"` key is titled `&quot;`, because the title is the key's own string and `gsub!` rewrites both |
| Kbd.FinishModsOrdered | KBDTag/kbd_tag.rb:227 | the stored modifiers are known modifiers, in the fixed order without repeats |
| Kbd.ImplicitShift | KBDTag/kbd_tag.rb:229-234 | a one-character key gets Shift exactly when Shift was typed, or when there is no modifier and the key is an upper-case letter or a shifted symbol |
| Kbd.ShiftedKeyIsUpper | KBDTag/kbd_tag.rb:235-236 | with Shift, a one-character key is stored shifted and upper-cased: an unshifted symbol as its partner in the `doubles` table, quoted, and any other key upcased |
| Kbd.ShiftedUpcased | KBDTag/kbd_tag.rb:235-236 | shifting then upcasing a one-character key leaves no unshifted symbol and no lower-case letter |
| Kbd.ShiftedSymbolUpcased | KBDTag/kbd_tag.rb:235-236 | the same for an unshifted symbol |
| Kbd.UpcaseOfSymbol | KBDTag/kbd_tag.rb:236 | upcasing leaves a shifted symbol alone |
| Kbd.UnshiftedUpcased | KBDTag/kbd_tag.rb:235-236 | the same for a key that is not an unshifted symbol |
| Kbd.DoubledIsSymbol | KBDTag/kbd_tag.rb:44-66 | no character of the shift table is a letter |
| Kbd.FirstFKey | KBDTag/kbd_tag.rb:157-159 | the first line that is `f` and one or two digits, when there is one, and otherwise none |
| Kbd.FindNamed | KBDTag/kbd_tag.rb:160-195 | no row is found only when no line matches any row |
| Kbd.NameToEntFunctionKey | KBDTag/kbd_tag.rb:157-159 | `f` and one or two digits names function key `F<n>`, its title `F<n> Key` |
| Kbd.NameToEntKnown | KBDTag/kbd_tag.rb:160-199 | a key matching a named row gives that row's symbol or name, and its title |
| Kbd.KnownRowFound | KBDTag/kbd_tag.rb:160-195 | the first matching row is the one found |
| Kbd.NameToEntUnknown | KBDTag/kbd_tag.rb:196-199 | any other key is its own name and symbol, with its capitalized form as title |
| Kbd.UnknownRowsMissed | KBDTag/kbd_tag.rb:160-196 | when no row matches, none is found |
| Kbd.Setting | KBDTag/kbd_tag.rb:255-257 | without a `kbd` section a setting is true; with one it is true exactly when it is present and true |
| Kbd.ModNamesAgree | KBDTag/kbd_tag.rb:102-134 | a spelled-out modifier shows the same name as its title; with symbols it shows something else |
| Kbd.OtherNamesPassThrough | KBDTag/kbd_tag.rb:102-134 | a string that is not one of the five modifiers comes through `mod_to_ent` and `mod_to_title` unchanged |
| Kbd.ModNamesDistinct | KBDTag/kbd_tag.rb:102-134 | the five modifiers get five different titles and, in either setting, five different element texts |
| Kbd.ModKbds | KBDTag/kbd_tag.rb:266-270 | one element per modifier |
| Kbd.ModTitles | KBDTag/kbd_tag.rb:266-270 | one title word per modifier |
| Kbd.ModElementsInOrder | KBDTag/kbd_tag.rb:266-270 | the i-th element and title word belong to the i-th modifier |
| Kbd.SpanElements | KBDTag/kbd_tag.rb:262-284 | one element and one title word per modifier, then one for a non-empty key, in that order |
| Kbd.CombinedIffTight | KBDTag/kbd_tag.rb:278-283 | the span class is `combined` exactly when the elements are joined with nothing; `-` joins them exactly when modifiers are spelled out, `+` exactly when symbols and the plus sign are both on |
| Kbd.SpansOnePerCombo | KBDTag/kbd_tag.rb:261-286 | one span per stored combination, in order; none is skipped |
| Kbd.ParseAllOnePerSegment | KBDTag/kbd_tag.rb:211-243 | one combination per `" / "` segment, in order |
| Kbd.KbdTag.constructor | KBDTag/kbd_tag.rb:208-245 | stores the combination of each `" / "` segment of the markup |
| Kbd.KbdTag.ParseSegments | KBDTag/kbd_tag.rb:211-243 | the segment loop yields the combinations `ParseAll` describes |
| Kbd.KbdTag.ParseSegment | KBDTag/kbd_tag.rb:212-242 | the loop body cleans, strips and splits the segment and finishes the combination as `ParseCombo` says |
| Kbd.KbdTag.ComboSpan | KBDTag/kbd_tag.rb:264-284 | the element loop builds the span `Span` describes |
| Kbd.KbdTag.Render | KBDTag/kbd_tag.rb:253-289 | the output is the spans of the stored combinations under the configured settings, joined by `/` |
| Kbd.KbdTag.ComboSpans | KBDTag/kbd_tag.rb:259-286 | the combination loop yields `Spans` of the combinations |
| Common.MapSeqElementwise | KBDTag/kbd_tag.rb:259-286 | mapping keeps the length and maps each element in place |
| Availability.ClassifyBands | Availability/availability.rb:237-256 | each of released, beta only and upcoming in both directions, as a condition on the two `String#>` comparisons |
| Availability.NewerReleaseNeverLater | Availability/availability.rb:237-238 | a later release build never moves a feature to a later band |
| Availability.NewerBetaNeverLater | Availability/availability.rb:237-238 | a later beta build never moves a feature to a later band |
| Availability.LaterMinimumNeverEarlier | Availability/availability.rb:237-238 | a later minimum version never lands in an earlier band |
| Availability.CurrentBuildIsReleased | Availability/availability.rb:237 | a minimum version equal to the release build counts as released |
| Availability.Pow10 | Availability/availability.rb:237 | arithmetic helper of the numeric build order (`Availability.ClassifyBuildsIsNumeric`): a power of ten is at least 1 |
| Availability.Pow10Monotone | Availability/availability.rb:237 | arithmetic helper of the numeric build order (`Availability.ClassifyBuildsIsNumeric`): powers of ten grow with the exponent |
| Availability.ValueBelow | Availability/availability.rb:237 | arithmetic helper of the numeric build order (`Availability.ClassifyBuildsIsNumeric`): n digits denote less than 10^n |
| Availability.MulMonotone | Availability/availability.rb:237 | arithmetic helper of the numeric build order (`Availability.ClassifyBuildsIsNumeric`): multiplying by the same natural keeps the order |
| Availability.ValueAbove | Availability/availability.rb:237 | arithmetic helper of the numeric build order (`Availability.ClassifyBuildsIsNumeric`): n digits with a non-zero lead denote at least 10^(n-1) |
| Availability.LeadingDigitDecides | Availability/availability.rb:237 | arithmetic helper of the numeric build order (`Availability.ClassifyBuildsIsNumeric`): a smaller leading digit gives the smaller number whatever follows |
| Availability.EqualLengthOrder | Availability/availability.rb:237 | between digit strings of one length, `String#>` is the numeric order |
| Availability.BuildGreaterIsNumeric | Availability/availability.rb:237-238 | corrected: longer-then-textual comparison of decimal build numbers is their numeric order |
| Availability.ClassifyBuildsIsNumeric | Availability/availability.rb:237-256 | corrected: the bands follow the numeric values of the builds |
| Availability.TextualOrderMisclassifies | Availability/availability.rb:237 | as written: build 100 counts as released when the release build is 99 |
| Availability.DefaultsComplete | Availability/availability.rb:131-168 | the built-in templates have block, inline and notification entries in both bands |
| Availability.MergeBand | Availability/availability.rb:174 | merging succeeds exactly when the configured band is a Hash |
| Availability.MergeTemplates | Availability/availability.rb:170-186 | merged bands keep every kind of template the defaults had |
| Availability.MergeTemplatesEntries | Availability/availability.rb:170-186 | merging raises exactly when a guard holds but its band is not a Hash; each merged entry is the configured one when given, else the default |
| Availability.UserBetaTemplatesIgnored | Availability/availability.rb:179-180 | as written: beta templates under `templates` are ignored without a top-level `beta` Hash |
| Availability.MergeTemplatesFixed | Availability/availability.rb:170-186 | corrected: merged bands stay complete |
| Availability.FixedMergeHonoursBothBands | Availability/availability.rb:170-186 | corrected: both bands use every configured entry; without `templates` the defaults are used |
| Availability.SparkleBuildNumber | Availability/availability.rb:189 | a value that is a line of digits and dots is used as the build, with no file read |
| Availability.SparkleBuildFromAppcast | Availability/availability.rb:188-194 | any other value is read as an appcast path, giving its last enclosure's version; nil or an unreadable file raises |
| Availability.AppcastEntry | Availability/availability.rb:225 | `config['appcast'][key]` raises exactly when there is no `appcast` section |
| Availability.BuildsRemembered | Availability/availability.rb:222-234 | stored builds are never replaced, at most two lookups are made, and the builds used are stored |
| Availability.StoredBuildsReused | Availability/availability.rb:222-234 | once both builds are stored, they are used and no appcast is read |
| Availability.LookupsHappenOnce | Availability/availability.rb:222-234 | after a successful lookup, the next render sees the same builds with no further lookup |
| Availability.MultilineIff | Availability/availability.rb:216 | content counts as several lines exactly when a line feed is followed somewhere later by another character |
| Availability.Fill | Availability/availability.rb:241-253 | filling succeeds exactly when the template kind is in the band's Hash |
| Availability.RenderFailures | Availability/availability.rb:214-304 | with complete defaults, a render raises exactly when merging or a build lookup raises; a failed merge reads no appcast |
| Availability.BlockRenderShape | Availability/availability.rb:236-256 | released content is returned as it is; otherwise the band's block template, with the headed content, for several lines and its inline template for one, with the minimum version |
| Availability.NoticeRenderShape | Availability/availability.rb:292-303 | nothing for a released feature; otherwise the band's notification template, with no content |
| Availability.UnstrippedMarkupMisclassifies | Availability/availability.rb:269 | as written: `{% availablenotif 119 %}` keeps the space before `%}` and is classed beta when the release build is 119 |
| Availability.FixedNoticeIgnoresTrailingSpace | Availability/availability.rb:210 | corrected: with the markup stripped as the block tag does, trailing blanks never change the band |
| Availability.AvailabilityConfig.constructor | Availability/availability.rb:218 | the section holds the built-in defaults, the given configuration and no stored build |
| Availability.AvailabilityConfig.ReadBuild | Availability/availability.rb:188-194 | one `get_sparkle_build` call, counted, with the result `SparkleBuild` describes; stored builds unchanged |
| Availability.AvailabilityConfig.CurrentBuilds | Availability/availability.rb:222-234 | result and stored builds are those of `Builds` |
| Availability.FeatureVersionBlockTag.constructor | Availability/availability.rb:209-212 | the minimum version is the stripped markup |
| Availability.FeatureVersionBlockTag.Render | Availability/availability.rb:214-257 | raises without an `availability` section; otherwise output and stored builds are those of `BlockRender` |
| Availability.FeatureVersionTag.constructor | Availability/availability.rb:268-271 | the minimum version is the markup as it is |
| Availability.FeatureVersionTag.Render | Availability/availability.rb:273-304 | raises without an `availability` section; otherwise output and stored builds are those of `NoticeRender` |
| Iterm.LastClose | iTerm/iterm.rb:44 | the greedy `(.*)` ends at a quote that only blanks and a line end can follow |
| Iterm.QuotedWhole | iTerm/iterm.rb:44-45 | a markup that is one quoted string gives its inside, inner quotes included |
| Iterm.QuotedNeedsQuote | iTerm/iterm.rb:44 | the quoted form only applies when a line of the markup starts with a quote |
| Iterm.WordEnd | iTerm/iterm.rb:48 | `\w+` runs over word characters only and stops at the end of the text or at the first character that is not one |
| Iterm.BlankEnd | iTerm/iterm.rb:48 | `\s*` skips blanks only and stops at the end of the text or at the first non-blank |
| Iterm.NonBlankEnd | iTerm/iterm.rb:48 | `[^\s]+` runs over non-blanks only and stops at the end of the text or at the first blank |
| Iterm.CloseQuote | iTerm/iterm.rb:48 | a closing quote found is a `q` after a body whose steps are a character other than `q` and backslash, or a backslash and a character other than a line feed |
| Iterm.CloseQuoteFirst | iTerm/iterm.rb:48 | any body followed by `q` ends at the quote `CloseQuote` finds, so the match cannot pick a later quote |
| Iterm.PlainBody | iTerm/iterm.rb:48 | text without the quote and without a backslash is a quoted body |
| Iterm.ValueEnd | iTerm/iterm.rb:48 | a value is found exactly when a non-blank starts it, and it is a double-quoted value, a single-quoted value or a whole non-blank run |
| Iterm.ValueEndQuoted | iTerm/iterm.rb:48 | a quoted value is taken whole by its quoted alternative |
| Iterm.ValueEndPlain | iTerm/iterm.rb:48 | a value not starting with a quote, or starting with a quote that is never closed, is the whole non-blank run |
| Iterm.WordEndAt | iTerm/iterm.rb:48 | a whole word run ends where `WordEnd` says |
| Iterm.BlankEndAt | iTerm/iterm.rb:48 | a run of blanks followed by a non-blank ends where `BlankEnd` says |
| Iterm.SeparatorOfBlanks | iTerm/iterm.rb:48 | the blanks, colon and blanks skipped form `\s*:\s*` |
| Iterm.MatchAt | iTerm/iterm.rb:48 | a match has a non-empty key and a non-empty value and moves the scan forward; none starts at a non-word character |
| Iterm.MatchAtShape | iTerm/iterm.rb:48 | what `MatchAt` finds is a match of the pair regex: the key is the word run at the start, then `\s*:\s*`, then the value, both read off the markup |
| Iterm.MatchAtOf | iTerm/iterm.rb:48 | any match of the pair regex at a position, with a quoted value, a value not starting with a quote, or a non-blank run after an unclosed quote, is the one `MatchAt` returns |
| Iterm.MatchAtOfValue | iTerm/iterm.rb:48 | a match of the pair regex whose value ends where `ValueEnd` says is the one `MatchAt` returns |
| Iterm.ScanFrom | iTerm/iterm.rb:48 | each pair found has a non-empty key and value, and there are no more pairs than characters left |
| Iterm.Scan | iTerm/iterm.rb:48 | the same for the whole markup |
| Iterm.ScanSkip | iTerm/iterm.rb:48 | the scan moves on one character where no key starts |
| Iterm.ScanMatch | iTerm/iterm.rb:48 | the scan keeps the match at its position and resumes where it ends |
| Iterm.ScanStep | iTerm/iterm.rb:48 | a match followed by a space is kept and the scan resumes after the space |
| Iterm.PairTextSlices | iTerm/iterm.rb:48 | a written pair is read back as its key, a colon and its value |
| Iterm.WordRunOf | iTerm/iterm.rb:48 | a key of word characters followed by a colon is a whole word run |
| Iterm.QuotedValueOf | iTerm/iterm.rb:48 | a written quoted value without its quote or a backslash inside is a quoted value of the regex |
| Iterm.PlainValueOf | iTerm/iterm.rb:48 | a written unquoted value followed by a blank or the end is a whole non-blank run |
| Iterm.PairMatched | iTerm/iterm.rb:48 | a well-formed pair written at a position and followed by a blank or the end is the match found there |
| Iterm.ScanLast | iTerm/iterm.rb:48 | a well-formed pair ending the markup is the last pair scanned |
| Iterm.PairScanned | iTerm/iterm.rb:48 | a well-formed pair followed by a space is scanned, and the scan resumes after the space |
| Iterm.JoinedSplit | iTerm/iterm.rb:48 | space-separated written pairs split into the first pair, a space and the rest |
| Iterm.ScanFirstOfJoined | iTerm/iterm.rb:48 | the first of several written pairs is scanned and the scan resumes at the written rest |
| Iterm.ScanJoined | iTerm/iterm.rb:48 | `scan` finds exactly the pairs of a space-separated list of well-formed pairs, in order |
| Iterm.JoinedShape | iTerm/iterm.rb:41-48 | such a list starts with a word character, ends with neither a blank nor NUL and holds no line feed |
| Iterm.NoQuoteAtLineStart | iTerm/iterm.rb:44 | without a quote at a line start there is no quoted form |
| Iterm.NotQuotedForm | iTerm/iterm.rb:44 | a text starting with a word character and without a line feed is not the quoted form |
| Iterm.PairFormText | iTerm/iterm.rb:41-56 | such a text, with nothing to strip, is read as pairs |
| Iterm.PairFormAttrs | iTerm/iterm.rb:41-56 | a markup of space-separated well-formed pairs stores exactly what those pairs assign, in order |
| Iterm.DocumentedJoined | iTerm/iterm.rb:9 | the documented pair markup is the four documented pairs written with spaces between them |
| Iterm.DocumentedWellFormed | iTerm/iterm.rb:9 | each documented pair is well formed |
| Iterm.DocumentedAssign | iTerm/iterm.rb:48-56 | the documented pairs store their values without the quotes |
| Iterm.QuotedFour | iTerm/iterm.rb:48-56 | four double-quoted pairs without backslashes store their bodies, later keys overwriting earlier ones |
| Iterm.AssignFour | iTerm/iterm.rb:48-56 | four pairs are stored in order, a later key overwriting an earlier one |
| Iterm.DocumentedPairForm | iTerm/iterm.rb:9-56 | `command:"ls -la" directory:"~/Desktop" text:"List in iTerm" language:"zsh"` stores those four values without their quotes |
| Iterm.Unescape | iTerm/iterm.rb:54 | unescaping never lengthens the value |
| Iterm.UnescapePlain | iTerm/iterm.rb:54 | a value without backslashes is left alone |
| Iterm.CleanQuotedValue | iTerm/iterm.rb:49-55 | a quoted value without backslashes is stored as the text between its quotes |
| Iterm.UnescapeEscaped | iTerm/iterm.rb:54 | an escaped quote becomes the quote itself |
| Iterm.AssignKeys | iTerm/iterm.rb:48-56 | every key of the markup is stored, and no other |
| Iterm.AssignLastWins | iTerm/iterm.rb:48-56 | the last pair with a key decides its stored value |
| Iterm.WithDefaults | iTerm/iterm.rb:60-61 | `text` and `language` get their defaults only when missing; every other attribute is kept and nothing else is added |
| Iterm.QuotedFormOnlyCommand | iTerm/iterm.rb:44-45 | the quoted form stores just the command |
| Iterm.SplitAtAmpersand | iTerm/iterm.rb:71-74 | the two parts put together give the text back |
| Iterm.SplitBeforeAmpersand | iTerm/iterm.rb:71-74 | the split falls at the first `&` |
| Iterm.DecodeUrlOfPrefixed | iTerm/iterm.rb:71 | a link with the `iterm2:/command?c=` prefix is decoded from its query |
| Iterm.DecodeCommandOnly | iTerm/iterm.rb:70-71 | an encoded command alone decodes to its UTF-8 bytes, with no directory |
| Iterm.DecodeCommandAndDirectory | iTerm/iterm.rb:70-74 | an encoded command and directory decode to the bytes of both |
| Iterm.ItermUrlRoundTrip | iTerm/iterm.rb:65-75 | the link carries the command, and the directory exactly when it is present and non-empty, without loss |
| Iterm.ItermUrlHasNoPlus | iTerm/iterm.rb:69-73 | no `+` reaches the link: every space is `%20` |
| Iterm.OpeningFence | iTerm/iterm.rb:78-79 | the fence is bare exactly when the language is empty, and otherwise ends with the language |
| Iterm.ReadAttributes | iTerm/iterm.rb:41-57 | the parse loop stores the attributes `ParseAttrs` describes |
| Iterm.ItermTag.constructor | iTerm/iterm.rb:38-62 | the parsed attributes with the defaults filled in |
| Iterm.ItermTag.Render | iTerm/iterm.rb:64-82 | the code block of the command in the chosen language, then the run button linking to the encoded command and directory, with the escaped text |
| Biner.Name | biner/biner.rb:105 | the stored name neither starts nor ends with a strip character |
| Biner.BlankMarkupRendersNothing | biner/biner.rb:105-109 | the tag renders nothing exactly when its markup is blank |
| Biner.PathJsonUrl | biner/biner.rb:111-113 | a name starting with `/` is appended to the stripped site url, which loses at most one trailing `/` |
| Biner.FileJsonUrl | biner/biner.rb:114-118 | any other name becomes `<base>/<name>.json` for the stripped base directory, which loses at most one trailing `/` |
| Biner.DefaultBaseDirectory | biner/biner.rb:100-117 | without a configured `base_directory` the built-in one is used unchanged |
| Biner.ImportUrlRoundTrip | biner/biner.rb:101-120 | the import URL is the Karabiner scheme with `?url=`, and form decoding of the rest gives back the JSON URL's UTF-8 bytes |
| Biner.AttributeOf | biner/biner.rb:123-131 | an escaped value cannot end its attribute early, and reads back as itself |
| Biner.MarkupRoundTrip | biner/biner.rb:122-134 | `data-json-url` and the Show JSON link hold the JSON URL and the main link holds the import URL, each read back unchanged |
| Biner.RenderPlacesUrls | biner/biner.rb:108-134 | a non-empty name renders the button for its JSON URL and the matching import URL |
| Donate.IdLength | Donation/donate_tag.rb:40 | the id group is absent or 12 to 16 characters long, within the markup |
| Donate.IdShape | Donation/donate_tag.rb:40-41 | an id is present exactly when the markup starts with twelve letters or digits; it is then the longest such prefix of at most 16, with no `"` |
| Donate.TextAbsentIff | Donation/donate_tag.rb:40-42 | the text is absent exactly when the rest of the first line after the id is blank; that rest never holds a line feed |
| Donate.IdThenRest | Donation/donate_tag.rb:40-42 | after an id of 12 to 16 letters and digits, the text group is the rest of the line |
| Donate.IdThenQuotedText | Donation/donate_tag.rb:20-42 | the documented `{% donate 78YFVY22AWW42 "Buy me coffee" %}` gives that id and the text without its quotes |
| Donate.FormRoundTrip | Donation/donate_tag.rb:51 | an id without `"` and any text are read back unchanged from the form |
| Donate.MarkupIdRendered | Donation/donate_tag.rb:47-51 | a markup id is placed in the form whatever the configuration, beside the resolved text |
| Donate.DonateTag.constructor | Donation/donate_tag.rb:39-45 | stores the id and the text the markup gives |
| Donate.DonateTag.Render | Donation/donate_tag.rb:47-52 | fills a missing text and id from the configuration or the fallbacks, keeps what was stored, and returns their form |
| Audio.NonSpaceEnd | HTML5Audio/audio_tag.rb:31 | the end of the `\S` run at a position: every character before it is not blank and the one at it is |
| Audio.SpaceEnd | HTML5Audio/audio_tag.rb:31 | the end of the `\s` run at a position: every character before it is blank and the one at it is not |
| Audio.NonSpaceEndAt | HTML5Audio/audio_tag.rb:31 | any position with that property is the end of the non-blank run |
| Audio.SpaceEndAt | HTML5Audio/audio_tag.rb:31 | any position with that property is the end of the blank run |
| Audio.LineEndAtEnd | HTML5Audio/audio_tag.rb:31 | with no line feed ahead, `(.*)` runs to the end of the text |
| Audio.SongStart | HTML5Audio/audio_tag.rb:31 | the leftmost place where `(https?:\/\/|\/)\S+` can match, or none when there is no such place |
| Audio.PrefixAtPiece | HTML5Audio/audio_tag.rb:31 | an opening seen in the markup is also seen at the start of the song cut from it |
| Audio.SongAt | HTML5Audio/audio_tag.rb:31-32 | the song at a match start has at least two characters, none blank, and starts with `https://`, `http://` (any ASCII case) or `/` |
| Audio.SongShape | HTML5Audio/audio_tag.rb:31-32 | a song is found exactly when a match can start somewhere, and it has that shape |
| Audio.SourcesByExtension | HTML5Audio/audio_tag.rb:31-43 | a source is set exactly when a song is found; an mp3 source ends in `.mp3` and an ogg one in `.ogg`, each starting with the song; when both are set they share a stem |
| Audio.SongThenTitle | HTML5Audio/audio_tag.rb:31-43 | for a markup that starts with a song of any of the three openings: a song followed by blanks makes the rest of the line the title as written; the sources depend on the song alone |
| Audio.SongAlone | HTML5Audio/audio_tag.rb:31-43 | a song of any of the three openings with no blank after it gives no title |
| Audio.SongStartExtends | HTML5Audio/audio_tag.rb:31 | a song stays a match start, ending at the same place, when a blank or nothing follows it |
| Audio.QuotedTitleKeepsQuotes | HTML5Audio/audio_tag.rb:31-33 | as written: the quotes of the documented `"Title"` stay in the stored title |
| Audio.FixedTitleUnquoted | HTML5Audio/audio_tag.rb:31-33 | corrected: after a song of any of the three openings, a quoted title followed by blanks is stored without its quotes, and the sources are unchanged |
| Audio.ReadSourceOf | HTML5Audio/audio_tag.rb:55-56 | a `source` element reads back its src and leaves what follows |
| Audio.ReadSourceSkipsOgg | HTML5Audio/audio_tag.rb:55-56 | an ogg `source` is not read as an mp3 one |
| Audio.ReadSourceSkipsText | HTML5Audio/audio_tag.rb:57 | the fallback text is not read as a `source` |
| Audio.ReadTailOf | HTML5Audio/audio_tag.rb:57-59 | the end of a figure reads back its title, or none |
| Audio.ReadSourcesOf | HTML5Audio/audio_tag.rb:55-57 | the two optional sources read back in order |
| Audio.FigureNested | HTML5Audio/audio_tag.rb:54-59 | the figure is its six parts in order |
| Audio.FigureRoundTrip | HTML5Audio/audio_tag.rb:54-59 | the mp3 source, then the ogg source, then a figcaption exactly when there is a title, each read back unchanged, given sources without `"` |
| Audio.CdnAccumulates | HTML5Audio/audio_tag.rb:50-53 | after k production renders a stored source carries k copies of `cdn_url` before the song, so each further render with a non-empty `cdn_url` changes it |
| Audio.AudioTag.constructor | HTML5Audio/audio_tag.rb:29-45 | the stored sources and title are those `Parse` finds in the markup |
| Audio.AudioTag.Render | HTML5Audio/audio_tag.rb:47-63 | no source gives the syntax error text; in production a missing `cdn_url` raises, otherwise the sources are prefixed in place; then the figure of the stored fields |
| Text.LStripSuffix | iTerm/iterm.rb:41 | `lstrip` keeps a suffix that does not start with a strip character, and drops only strip characters |
| Text.RStripPrefix | iTerm/iterm.rb:41 | `rstrip` keeps a prefix that does not end with a strip character, and drops only strip characters |
| Text.StripEnds | iTerm/iterm.rb:41 | what `strip` keeps neither starts nor ends with a strip character |
| Text.StripOfTrimmed | iTerm/iterm.rb:41 | a string without strip characters at its ends is its own `strip` |
| Text.StripEmptyIff | biner/biner.rb:105-109 | `strip` leaves nothing exactly when the string is all strip characters |
| Text.StripRemovesOnlyStripChars | iTerm/iterm.rb:41 | `strip` keeps a contiguous piece of the input and removes only strip characters around it |
| Text.LStripAppend | Donation/donate_tag.rb:42 | the right part of a concatenation only matters to `lstrip` once the left part is all strip characters |
| Text.RStripAppend | Donation/donate_tag.rb:42 | trailing strip characters make no difference to `rstrip` |
| Text.StripAppend | Availability/availability.rb:210 | trailing strip characters make no difference to `strip` |
| Text.Chomp | biner/biner.rb:111-118 | `chomp('/')` drops exactly one trailing `/` when there is one, and otherwise leaves the string alone |
| Text.SplitAll | KBDTag/kbd_tag.rb:211 | at least one piece, and the pieces joined with the separator give the text back |
| Text.SplitAllNoSeparator | KBDTag/kbd_tag.rb:211 | a text in which the separator does not occur is one piece |
| Text.SplitAllAtFirst | KBDTag/kbd_tag.rb:211 | splitting at the first occurrence of the separator gives the text before it, then the pieces of the rest |
| Text.DropTrailingEmpty | KBDTag/kbd_tag.rb:211 | drops exactly the empty pieces at the end |
| Text.IndexOf | Availability/availability.rb:216 | the first position of the character |
| Text.SplitAllNoNewline | Availability/availability.rb:216 | a text without a line feed is one line |
| Text.SplitAllAtNewline | Availability/availability.rb:216 | splitting at the first line feed gives the first line and the lines of the rest |
| Text.DropTrailingEmptyCons | Availability/availability.rb:216 | dropping trailing empty lines after a leading line |
| Text.AllNewlinesAround | Availability/availability.rb:216 | a text around a line feed is all line feeds exactly when both sides are |
| Text.SplitAllEmptyIffNewlines | Availability/availability.rb:216 | the lines are all empty exactly when the text is only line feeds |
| Text.LexLessIrreflexive | Availability/availability.rb:237 | no string is `>` itself |
| Text.LexLessTransitive | Availability/availability.rb:237-238 | `String#<` is transitive |
| Text.LexLessTotal | Availability/availability.rb:237-238 | any two different strings are ordered by `String#<` |
| Text.LexLessAsymmetric | Availability/availability.rb:237-238 | `String#<` never holds both ways |
| Text.LowerChar | GistTag/gist_tag.rb:183 | only upper-case letters change, and into lower-case ones |
| Text.UpperChar | KBDTag/kbd_tag.rb:236 | only lower-case letters change, and into upper-case ones |
| Text.Downcase | GistTag/gist_tag.rb:183 | same length; each character lowered in place |
| Text.Upcase | KBDTag/kbd_tag.rb:236 | same length; each character raised in place |
| Text.Capitalize | KBDTag/kbd_tag.rb:197 | same length; the first character raised and the rest lowered |
| Text.ReplaceChar | GistTag/gist_tag.rb:187 | a replaced character is gone when the replacement lacks it; a string without it is unchanged; a single `c` becomes the replacement and any other single character stays |
| Text.ReplaceCharKeepsOut | iTerm/iterm.rb:70 | a character in neither the input nor the replacement is not in the output |
| Text.ReplaceCharAppend | iTerm/iterm.rb:70 | the replacement works piece by piece |
| Text.AlnumRunEnd | Donation/donate_tag.rb:40 | the end of the letter-and-digit run at a position |
| Text.LineEnd | Donation/donate_tag.rb:40 | the first line feed at or after a position, or the end of the text |
| Text.TakeUntil | Donation/donate_tag.rb:51 | a prefix of the text without the character |
| Text.TakeUntilOf | Donation/donate_tag.rb:51 | reading up to the character stops at its first occurrence |
| Text.DropQuotesUnwraps | Donation/donate_tag.rb:42 | one leading and one trailing quote of either kind are both removed |
| Text.DropQuotesOfUnquoted | Donation/donate_tag.rb:42 | a text that neither starts nor ends with a quote is kept as it is |
| Escape.Utf8 | iTerm/iterm.rb:70 | one to four bytes; a single byte exactly for ASCII, which is its own code; every byte of a wider character is at least 0x80 |
| Escape.EncodeByte | iTerm/iterm.rb:70 | only a space gives `+`; no escaped byte contains a space; the result is ASCII |
| Escape.HexDigitDecodes | iTerm/iterm.rb:70 | each upper-case hex digit decodes to its value |
| Escape.DecodeEncodedByte | biner/biner.rb:120 | form decoding undoes the escaping of one byte |
| Escape.DecodeEncodedBytes | biner/biner.rb:120 | form decoding undoes the escaping of any byte string |
| Escape.FormEncodeRoundTrip | biner/biner.rb:120 | form decoding of `CGI.escape` or `encode_www_form_component` gives the UTF-8 bytes of the input |
| Escape.EncodeBytesHasNoSpace | iTerm/iterm.rb:70 | no escaped string contains a space |
| Escape.PlainDecodeOfEscape | iTerm/iterm.rb:70 | a `%XY` escape decodes to the byte XY |
| Escape.PlainDecodeOfKept | iTerm/iterm.rb:70 | a kept byte decodes to itself |
| Escape.PlainDecodeOfItermByte | iTerm/iterm.rb:70 | percent decoding undoes the iTerm escaping of one byte |
| Escape.PlainDecodeOfItermBytes | iTerm/iterm.rb:70 | percent decoding undoes the iTerm escaping of any byte string |
| Escape.ItermEncodeRoundTrip | iTerm/iterm.rb:70 | percent decoding, with no `+` rule, of the iTerm encoding gives the UTF-8 bytes of the input |
| Escape.EncodeByteHasNoAmpersand | iTerm/iterm.rb:70 | no escaped byte gives `&` |
| Escape.EncodeBytesHasNoAmpersand | iTerm/iterm.rb:70 | no escaped string contains `&` |
| Escape.ItermEncodeHasNoAmpersand | iTerm/iterm.rb:70-74 | an encoded command cannot run into the `&d=` parameter |
| Escape.ItermEncodeHasNoPlus | iTerm/iterm.rb:69-70 | the iTerm encoding has no `+` at all |
| Escape.EscapeHtml | iTerm/iterm.rb:81 | no `<`, `>`, `"` or `'` is left, so the text can stand in an element or a quoted attribute |
| Escape.UnescapeEscapedChar | iTerm/iterm.rb:81 | unescaping undoes the escaping of one character |
| Escape.HtmlRoundTrip | iTerm/iterm.rb:81 | HTML escaping loses nothing: unescaping gives the input back |

## Left out

- Network and file I/O (HTTP requests, the proxy from `ENV['http_proxy']`, TLS settings, the JSON cache file, `IO.read`, `FileUtils.mkdir_p`): the remote is a map from gist ids to replies and from URLs to bodies, with request counters, and the cache is a map with a write counter.
- JSON parsing and serialisation: replies are already-parsed records, with optional fields where a key may be missing.
- MD5 (RFC 1321), `highlight` and `tableize_code`: these are function-valued parameters (`Gist.Services`), since their code is not part of this model.
- `Time.parse` of `updated_at`: timestamps are compared as the strings the reply holds.
- Messages written to `$stderr` by the gist tag's `rescue`: only the nil result is modelled.
- Nokogiri reading of a Sparkle appcast: an appcast file is a map from paths to the version of the last enclosure, or to nothing when the file cannot be read.
- ERB evaluation of availability templates and Kramdown: a rendered output is the chosen template together with the content and `min_version` it would be evaluated with; `append_header` is a function-valued parameter.
- Configuration values of other Ruby types (for example an Integer YAML value where a string is read, or a non-string `cdn_url`): each configuration entry is either missing or of the type the tag expects, except the availability `templates`, `upcoming` and `beta` entries, which may be a non-Hash and then raise as in the source.
- Text.Downcase, Text.Upcase, Text.Capitalize: ASCII case mapping only; Ruby maps Unicode letters too.
- Gist.ParseMarkup: the regular expression's `[a-z0-9]` under `/i` is read as the ASCII letters and digits; Unicode case folding in Ruby's regular expressions may also admit the few non-ASCII characters that fold to an ASCII letter.
- Kbd.CleanComboWordByWord, Kbd.CleanComboSeparator, Kbd.RewriteAround, Kbd.RewriteAppend, Kbd.RewriteAppendAtOther: the `gsub!(/\b(...)\b/i, …)` calls of KBDTag/kbd_tag.rb:33-37 are read with `\b` as a boundary of ASCII `[A-Za-z0-9_]` runs and `/i` as ASCII case folding. Ruby's `\b` follows Unicode word rules, so `écmd` is left unchanged in Ruby while the model gives `é@`; Ruby's `/i` folds U+017F to `s`, so `ſhift` becomes `$` in Ruby while the model leaves it unchanged.
- Audio.SongStart, Audio.SongAt, Audio.PrefixAt: the opening `(https?:\/\/|\/)` under `/i` (HTML5Audio/audio_tag.rb:31) is matched ignoring ASCII case only; Ruby's `/i` also applies Unicode case folding, so for `httpſ://h/a` (U+017F folds to `s`) Ruby takes the song from position 0 while the model takes the later `//h/a`.
- Donate.IdLength, Donate.IdOf, Donate.IdShape: the same ASCII reading of `[A-Z0-9]` under `/i` in the id regular expression (Donation/donate_tag.rb:40); characters such as U+212A KELVIN SIGN that fold to an ASCII letter are not counted as id characters.
- The `<script>` that biner.rb appends after the button (biner/biner.rb:135-167): it is browser-side code with no computed value; the rendered markup ends with the button's closing `</div>`.
- Liquid plumbing: tag registration, `context.registers[:site]`, and the output of `super` in the audio `render`, which the tag discards.
- Gist.CacheFileNameInjective: proved only for gist ids that clean to a string without `-` and for digests of equal length, because the name format is ambiguous otherwise; MD5 is a parameter here, so a hex digest length cannot be assumed.
- The other tags of the repository (OGTags, YouTube, Countdown, GifTag and the rest) are not part of this model.

## Findings

| source | as written | input that shows it | evidently intended | confidence | as-written member | corrected member |
|---|---|---|---|---|---|---|
| GistTag/gist_tag.rb:93 | the cached `updated` is compared with `check['updated_at']`, but `check` is a file entry, whose timestamp line 165 stores under `updated`; GitHub's file entries have no `updated_at` | `gist_check_update: true`, a cached record with `updated` set, a reply whose file has no `updated_at` key | serve the cache when the gist's `updated_at` equals the stored `updated`, and rebuild otherwise | high, not executed | Gist.RevalidationNeverServesCache | Gist.FixedRevalidationServesUnchanged |
| Availability/availability.rb:237-238 | builds are compared with `String#>`, which is textual | minimum version `100`, release build `99`, beta build `99`: classed released | compare build numbers by value | medium, not executed | Availability.TextualOrderMisclassifies | Availability.ClassifyBuildsIsNumeric |
| Availability/availability.rb:179-180 | the beta merge is guarded by `config['beta']` instead of `config['templates']['beta']` | `templates: {upcoming: {...}, beta: {inline: X}}` with no top-level `beta`: the beta `inline` stays the default | guard the beta merge as the upcoming one is, on the `templates` section; the corrected merge still raises, as line 174 does now, when `templates` is a Hash without an `upcoming` or `beta` Hash | high, not executed | Availability.UserBetaTemplatesIgnored | Availability.FixedMergeHonoursBothBands |
| Availability/availability.rb:269 | the notification tag keeps its markup unstripped, while the block tag (line 210) strips it | `{% availablenotif 119 %}` (markup `"119 "`) with release build `119`: classed beta | strip the markup, as the block tag does | high, not executed | Availability.UnstrippedMarkupMisclassifies | Availability.FixedNoticeIgnoresTrailingSpace |
| HTML5Audio/audio_tag.rb:31-33 | the title is the rest of the line as written, quotes included, though the documented syntax quotes it | `{% audio /share/junkyangel "Junky Angel" %}` stores the title `"Junky Angel"` with its quotes; the header comment's output (lines 5-19) shows `<figcaption>Junky Angel</figcaption>` | drop the quotes around the title | medium, not executed | Audio.QuotedTitleKeepsQuotes | Audio.FixedTitleUnquoted |
