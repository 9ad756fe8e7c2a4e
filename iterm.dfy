/**
 * The iTerm command tag: `{% iterm "cmd" %}` or
 * `{% iterm command:"cmd" directory:"dir" text:"…" language:"zsh" %}`
 * shows a command in a fenced code block followed by a button whose link
 * `iterm2:/command?c=…&d=…` runs it in iTerm.
 */
module Iterm {
  import opened Common
  import Text
  import Escape

  // ------------------------------------------------------------------
  // The quoted form: /^['"](.*)['"]\s*$/m
  // ------------------------------------------------------------------

  /** `\s*$` after a closing quote: blanks, then the end of the text or of a line. */
  predicate LineEndsAfter(s: string)
    decreases |s|
  {
    s == [] || s[0] == '\n' || (Text.IsSpace(s[0]) && LineEndsAfter(s[1..]))
  }

  /**
   * The greedy `(.*)` opened by the quote at `p`: the last position below
   * `q` holding a quote that `\s*$` can follow.
   */
  function LastClose(m: string, p: nat, q: nat): (r: Option<nat>)
    requires q <= |m|
    ensures r.Some? ==> p < r.value < q && Text.IsQuote(m[r.value]) && LineEndsAfter(m[r.value + 1..])
    decreases q
  {
    if q <= p + 1 then None
    else if Text.IsQuote(m[q - 1]) && LineEndsAfter(m[q..]) then Some(q - 1)
    else LastClose(m, p, q - 1)
  }

  /** The leftmost match at or after `p`: a line start holding a quote that has a closing quote; the group it captures. */
  function QuotedFrom(m: string, p: nat): Option<string>
    decreases |m| - p
  {
    if p >= |m| then None
    else if QuoteAtLineStart(m, p) && LastClose(m, p, |m|).Some? then
      Some(m[p + 1..LastClose(m, p, |m|).value])
    else QuotedFrom(m, p + 1)
  }

  /** `markup =~ /^['"](.*)['"]\s*$/m` and its first group. */
  function Quoted(m: string): Option<string>
  {
    QuotedFrom(m, 0)
  }

  /** A markup that is one quoted string gives its inside, quotes within it included. */
  lemma QuotedWhole(open: char, body: string, close: char)
    requires Text.IsQuote(open) && Text.IsQuote(close)
    ensures Quoted([open] + body + [close]) == Some(body)
  {
    var m := [open] + body + [close];
    assert m[|m|..] == [];
    assert m[1..|m| - 1] == body;
  }

  /** A quote at the start of the text or of a line: where `^['"]` can match. */
  predicate QuoteAtLineStart(m: string, i: nat)
  {
    i < |m| && (i == 0 || m[i - 1] == '\n') && Text.IsQuote(m[i])
  }

  /** The quoted form only applies when some line of the markup starts with a quote. */
  lemma {:induction false} QuotedNeedsQuote(m: string, p: nat)
    requires QuotedFrom(m, p).Some?
    ensures exists i :: p <= i && QuoteAtLineStart(m, i)
    decreases |m| - p
  {
    if !QuoteAtLineStart(m, p) {
      QuotedNeedsQuote(m, p + 1);
    }
  }

  // ------------------------------------------------------------------
  // The pair form: (\w+)\s*:\s*("(?:[^"\\]|\\.)*"|'(?:[^'\\]|\\.)*'|[^\s]+)
  // ------------------------------------------------------------------

  /** The end of the run of word characters from `i`. */
  function WordEnd(m: string, i: nat): (e: nat)
    requires i <= |m|
    ensures i <= e <= |m|
    ensures forall k :: i <= k < e ==> Text.IsWordChar(m[k])
    ensures e < |m| ==> !Text.IsWordChar(m[e])
    decreases |m| - i
  {
    if i < |m| && Text.IsWordChar(m[i]) then WordEnd(m, i + 1) else i
  }

  /** The end of the run of `\s` characters from `i`. */
  function BlankEnd(m: string, i: nat): (e: nat)
    requires i <= |m|
    ensures i <= e <= |m|
    ensures forall k :: i <= k < e ==> Text.IsSpace(m[k])
    ensures e < |m| ==> !Text.IsSpace(m[e])
    decreases |m| - i
  {
    if i < |m| && Text.IsSpace(m[i]) then BlankEnd(m, i + 1) else i
  }

  /** The end of the run of non-`\s` characters from `i`. */
  function NonBlankEnd(m: string, i: nat): (e: nat)
    requires i <= |m|
    ensures i <= e <= |m|
    ensures forall k :: i <= k < e ==> !Text.IsSpace(m[k])
    ensures e < |m| ==> Text.IsSpace(m[e])
    decreases |m| - i
  {
    if i < |m| && !Text.IsSpace(m[i]) then NonBlankEnd(m, i + 1) else i
  }

  /**
   * `m[i..j]` is in the language of `(?:[^q\\]|\\.)*`: each step takes a
   * character other than `q` and backslash, or a backslash and a character
   * other than a line feed (`.` does not match one).
   */
  predicate QuotedBody(m: string, i: nat, j: nat, q: char)
    requires i <= j <= |m|
    decreases j - i
  {
    i == j
    || (m[i] != q && m[i] != '\\' && QuotedBody(m, i + 1, j, q))
    || (i + 2 <= j && m[i] == '\\' && m[i + 1] != '\n' && QuotedBody(m, i + 2, j, q))
  }

  /**
   * The body of a value quoted with `q`, from `i`, and the closing `q` after
   * it. The steps of the body are forced by the characters, so the closing
   * quote is the first `q` that is not taken by a backslash.
   */
  function CloseQuote(m: string, i: nat, q: char): (r: Option<nat>)
    requires i <= |m|
    ensures r.Some? ==> i <= r.value < |m| && m[r.value] == q && QuotedBody(m, i, r.value, q)
    decreases |m| - i
  {
    if i >= |m| then None
    else if m[i] == q then Some(i)
    else if m[i] == '\\' then
      if i + 1 < |m| && m[i + 1] != '\n' then CloseQuote(m, i + 2, q) else None
    else CloseQuote(m, i + 1, q)
  }

  /** Any body followed by `q` is the one `CloseQuote` finds: no backtracking picks another closing quote. */
  lemma {:induction false} CloseQuoteFirst(m: string, i: nat, j: nat, q: char)
    requires i <= j < |m| && q != '\\' && m[j] == q && QuotedBody(m, i, j, q)
    ensures CloseQuote(m, i, q) == Some(j)
    decreases j - i
  {
    if i < j {
      if m[i] != q && m[i] != '\\' && QuotedBody(m, i + 1, j, q) {
        CloseQuoteFirst(m, i + 1, j, q);
      } else {
        CloseQuoteFirst(m, i + 2, j, q);
      }
    }
  }

  /** A stretch without `q` and without backslashes is a body. */
  lemma {:induction false} PlainBody(m: string, i: nat, j: nat, q: char)
    requires i <= j <= |m|
    requires forall k :: i <= k < j ==> m[k] != q && m[k] != '\\'
    ensures QuotedBody(m, i, j, q)
    decreases j - i
  {
    if i < j {
      PlainBody(m, i + 1, j, q);
    }
  }

  /** `m[v..e]` is a value quoted with `q`: the alternative `q(?:[^q\\]|\\.)*q`. */
  predicate QuotedValueAt(m: string, v: nat, e: nat, q: char)
  {
    v + 2 <= e <= |m| && m[v] == q && m[e - 1] == q && QuotedBody(m, v + 1, e - 1, q)
  }

  /** `m[v..e]` is the greedy `[^\s]+` from `v`. */
  predicate NonBlankRunAt(m: string, v: nat, e: nat)
  {
    v < e <= |m| && (forall k :: v <= k < e ==> !Text.IsSpace(m[k])) && (e == |m| || Text.IsSpace(m[e]))
  }

  /** The end of the value that starts at `v`: a double-quoted, then a single-quoted value, else a non-blank run. */
  function ValueEnd(m: string, v: nat): (r: Option<nat>)
    requires v <= |m|
    ensures r.Some? ==> QuotedValueAt(m, v, r.value, '"') || QuotedValueAt(m, v, r.value, '\'') || NonBlankRunAt(m, v, r.value)
    ensures r.None? <==> v == |m| || Text.IsSpace(m[v])
  {
    if v < |m| && m[v] == '"' && CloseQuote(m, v + 1, '"').Some? then Some(CloseQuote(m, v + 1, '"').value + 1)
    else if v < |m| && m[v] == '\'' && CloseQuote(m, v + 1, '\'').Some? then Some(CloseQuote(m, v + 1, '\'').value + 1)
    else if v < |m| && !Text.IsSpace(m[v]) then Some(NonBlankEnd(m, v))
    else None
  }

  /** A quoted value is matched whole by its quoted alternative, which comes first. */
  lemma ValueEndQuoted(m: string, v: nat, e: nat, q: char)
    requires Text.IsQuote(q) && QuotedValueAt(m, v, e, q)
    ensures ValueEnd(m, v) == Some(e)
  {
    CloseQuoteFirst(m, v + 1, e - 1, q);
  }

  /**
   * A value that does not start with a quote, or starts with one that is
   * never closed, is the whole non-blank run: the regex falls back to `[^\s]+`.
   */
  lemma ValueEndPlain(m: string, v: nat, e: nat)
    requires NonBlankRunAt(m, v, e)
    requires !Text.IsQuote(m[v]) || CloseQuote(m, v + 1, m[v]).None?
    ensures ValueEnd(m, v) == Some(e)
  {
  }

  /** `m[p..e]` is the whole run of word characters from `p`, and not empty: what `(\w+)` takes. */
  predicate WordRunAt(m: string, p: nat, e: nat)
  {
    p < e <= |m| && (forall k :: p <= k < e ==> Text.IsWordChar(m[k])) && (e == |m| || !Text.IsWordChar(m[e]))
  }

  /** `m[e..v]` is `\s*:\s*` with its colon at `c`. */
  predicate SeparatorAt(m: string, e: nat, c: nat, v: nat)
  {
    e <= c < v <= |m| && m[c] == ':' && forall k :: e <= k < v && k != c ==> Text.IsSpace(m[k])
  }

  /** `m[v..end]` is matched by one of the three alternatives of the value group. */
  predicate ValueAt(m: string, v: nat, end: nat)
  {
    QuotedValueAt(m, v, end, '"') || QuotedValueAt(m, v, end, '\'') || NonBlankRunAt(m, v, end)
  }

  /** The regular expression matches at `p` with key `m[p..e]`, colon at `c` and value `m[v..end]`. */
  predicate PairAt(m: string, p: nat, e: nat, c: nat, v: nat, end: nat)
  {
    WordRunAt(m, p, e) && SeparatorAt(m, e, c, v) && ValueAt(m, v, end)
  }

  /** The word run from `p` ends where `WordEnd` says, and nowhere else. */
  lemma WordEndAt(m: string, p: nat, e: nat)
    requires WordRunAt(m, p, e)
    ensures WordEnd(m, p) == e
  {
  }

  /** A run of blanks followed by a non-blank or the end is where `BlankEnd` stops. */
  lemma BlankEndAt(m: string, i: nat, e: nat)
    requires i <= e <= |m| && (forall k :: i <= k < e ==> Text.IsSpace(m[k])) && (e == |m| || !Text.IsSpace(m[e]))
    ensures BlankEnd(m, i) == e
  {
  }

  /** The blanks, colon and blanks `MatchAt` skips form the separator. */
  lemma SeparatorOfBlanks(m: string, e: nat)
    requires e <= |m|
    requires BlankEnd(m, e) < |m| && m[BlankEnd(m, e)] == ':'
    ensures SeparatorAt(m, e, BlankEnd(m, e), BlankEnd(m, BlankEnd(m, e) + 1))
  {
  }

  /**
   * A match starting at `p`: the key, the raw value and the end of the match.
   * `\w+` takes the whole word run from `p`, since a shorter run leaves a
   * word character where `\s*:` is needed.
   */
  function MatchAt(m: string, p: nat): (r: Option<(string, string, nat)>)
    requires p <= |m|
    ensures r.Some? ==> p + |r.value.0| < r.value.2 - |r.value.1| < r.value.2 <= |m| && r.value.0 != []
    ensures p < |m| && !Text.IsWordChar(m[p]) ==> r.None?
  {
    if p < |m| && Text.IsWordChar(m[p]) then
      var e := WordEnd(m, p);
      var colon := BlankEnd(m, e);
      if colon < |m| && m[colon] == ':' then
        var v := BlankEnd(m, colon + 1);
        match ValueEnd(m, v)
        case Some(end) => Some((m[p..e], m[v..end], end))
        case None => None
      else None
    else None
  }

  /** What `MatchAt` finds is a match of the regular expression: a word run, a separator and a value, read off the markup. */
  lemma MatchAtShape(m: string, p: nat)
    requires p <= |m| && MatchAt(m, p).Some?
    ensures var r := MatchAt(m, p).value;
            var e := p + |r.0|;
            var v := r.2 - |r.1|;
            p < e < v < r.2 <= |m| && r.0 == m[p..e] && r.1 == m[v..r.2]
            && PairAt(m, p, e, BlankEnd(m, e), v, r.2)
  {
    assert p < |m| && Text.IsWordChar(m[p]);
    var e := WordEnd(m, p);
    var c := BlankEnd(m, e);
    assert c < |m| && m[c] == ':';
    var v := BlankEnd(m, c + 1);
    assert ValueEnd(m, v).Some?;
    var end := ValueEnd(m, v).value;
    assert MatchAt(m, p).value == (m[p..e], m[v..end], end);
    assert WordRunAt(m, p, e);
    SeparatorOfBlanks(m, e);
    assert ValueAt(m, v, end);
  }

  /**
   * Any match of the regular expression at `p` whose value is quoted, does
   * not start with a quote, or starts with a quote that is never closed, is
   * the one `MatchAt` finds.
   */
  lemma MatchAtOf(m: string, p: nat, e: nat, c: nat, v: nat, end: nat)
    requires PairAt(m, p, e, c, v, end)
    requires QuotedValueAt(m, v, end, '"') || QuotedValueAt(m, v, end, '\'') || !Text.IsQuote(m[v])
             || (Text.IsQuote(m[v]) && CloseQuote(m, v + 1, m[v]).None? && NonBlankRunAt(m, v, end))
    ensures MatchAt(m, p) == Some((m[p..e], m[v..end], end))
  {
    if QuotedValueAt(m, v, end, '"') {
      ValueEndQuoted(m, v, end, '"');
    } else if QuotedValueAt(m, v, end, '\'') {
      ValueEndQuoted(m, v, end, '\'');
    } else {
      assert NonBlankRunAt(m, v, end);
      ValueEndPlain(m, v, end);
    }
    MatchAtOfValue(m, p, e, c, v, end);
  }

  /** A match of the regular expression at `p` whose value ends where `ValueEnd` says is the one `MatchAt` finds. */
  lemma MatchAtOfValue(m: string, p: nat, e: nat, c: nat, v: nat, end: nat)
    requires PairAt(m, p, e, c, v, end) && ValueEnd(m, v) == Some(end)
    ensures MatchAt(m, p) == Some((m[p..e], m[v..end], end))
  {
    WordEndAt(m, p, e);
    BlankEndAt(m, e, c);
    BlankEndAt(m, c + 1, v);
  }

  /** `String#scan` from `pos`: the leftmost match, then the scan from its end. */
  function ScanFrom(m: string, pos: nat): (r: seq<(string, string)>)
    requires pos <= |m|
    ensures |r| <= |m| - pos
    ensures forall i :: 0 <= i < |r| ==> r[i].0 != [] && r[i].1 != []
    decreases |m| - pos
  {
    if pos >= |m| then []
    else
      match MatchAt(m, pos)
      case Some((key, raw, end)) => [(key, raw)] + ScanFrom(m, end)
      case None => ScanFrom(m, pos + 1)
  }

  /** `markup.scan(...)`: every pair found, left to right; each has a non-empty key and value. */
  function Scan(m: string): (r: seq<(string, string)>)
    ensures |r| <= |m|
    ensures forall i :: 0 <= i < |r| ==> r[i].0 != [] && r[i].1 != []
  {
    ScanFrom(m, 0)
  }

  // ------------------------------------------------------------------
  // Markups written as blank-separated pairs
  // ------------------------------------------------------------------

  /** A value the quoted alternative takes whole: quotes around a body without that quote or a backslash. */
  predicate QuotedRaw(v: string)
  {
    |v| >= 2 && Text.IsQuote(v[0]) && v[|v| - 1] == v[0]
    && forall i :: 1 <= i < |v| - 1 ==> v[i] != v[0] && v[i] != '\\'
  }

  /** An unquoted value: it does not start with a quote and holds no blank or NUL. */
  predicate PlainRaw(v: string)
  {
    |v| > 0 && !Text.IsQuote(v[0]) && forall i :: 0 <= i < |v| ==> !Text.IsStripChar(v[i])
  }

  /** A key of word characters and a value written as the tag documents. */
  predicate WellFormedPair(kv: (string, string))
  {
    |kv.0| > 0 && (forall i :: 0 <= i < |kv.0| ==> Text.IsWordChar(kv.0[i]))
    && (QuotedRaw(kv.1) || PlainRaw(kv.1)) && '\n' !in kv.1
  }

  function PairText(kv: (string, string)): string
  {
    kv.0 + ":" + kv.1
  }

  /** The pairs written one after another, separated by single spaces. */
  function Joined(ps: seq<(string, string)>): string
  {
    if |ps| == 0 then ""
    else if |ps| == 1 then PairText(ps[0])
    else PairText(ps[0]) + " " + Joined(ps[1..])
  }

  /** The key, the colon and the value of a written pair, read off the markup. */
  lemma PairTextSlices(m: string, pos: nat, kv: (string, string))
    requires pos + |PairText(kv)| <= |m| && m[pos..pos + |PairText(kv)|] == PairText(kv)
    ensures m[pos..pos + |kv.0|] == kv.0 && m[pos + |kv.0|] == ':'
    ensures m[pos + |kv.0| + 1..pos + |PairText(kv)|] == kv.1
  {
    var w := PairText(kv);
    assert m[pos..pos + |kv.0|] == w[..|kv.0|];
    assert m[pos + |kv.0|] == w[|kv.0|];
    assert m[pos + |kv.0| + 1..pos + |w|] == w[|kv.0| + 1..];
  }

  lemma WordRunOf(m: string, p: nat, k: string)
    requires p + |k| < |m| && m[p..p + |k|] == k && m[p + |k|] == ':'
    requires |k| > 0 && forall i :: 0 <= i < |k| ==> Text.IsWordChar(k[i])
    ensures WordRunAt(m, p, p + |k|)
  {
    forall j | p <= j < p + |k| ensures Text.IsWordChar(m[j]) {
      assert m[j] == k[j - p];
    }
  }

  lemma QuotedValueOf(m: string, v0: nat, v: string)
    requires QuotedRaw(v) && v0 + |v| <= |m| && m[v0..v0 + |v|] == v
    ensures QuotedValueAt(m, v0, v0 + |v|, v[0])
  {
    forall j | v0 + 1 <= j < v0 + |v| - 1 ensures m[j] != v[0] && m[j] != '\\' {
      assert m[j] == v[j - v0];
    }
    PlainBody(m, v0 + 1, v0 + |v| - 1, v[0]);
    assert m[v0] == v[0] && m[v0 + |v| - 1] == v[|v| - 1];
  }

  lemma PlainValueOf(m: string, v0: nat, v: string)
    requires PlainRaw(v) && v0 + |v| <= |m| && m[v0..v0 + |v|] == v
    requires v0 + |v| == |m| || Text.IsSpace(m[v0 + |v|])
    ensures NonBlankRunAt(m, v0, v0 + |v|) && !Text.IsQuote(m[v0])
  {
    forall j | v0 <= j < v0 + |v| ensures !Text.IsSpace(m[j]) {
      assert m[j] == v[j - v0];
      assert !Text.IsStripChar(v[j - v0]);
    }
    assert m[v0] == v[0];
  }

  /** A well-formed pair written at `pos` and followed by a blank or the end is the match found there. */
  lemma PairMatched(m: string, pos: nat, kv: (string, string))
    requires WellFormedPair(kv)
    requires pos + |PairText(kv)| <= |m| && m[pos..pos + |PairText(kv)|] == PairText(kv)
    requires pos + |PairText(kv)| == |m| || Text.IsSpace(m[pos + |PairText(kv)|])
    ensures MatchAt(m, pos) == Some((kv.0, kv.1, pos + |PairText(kv)|))
  {
    var e := pos + |kv.0|;
    var end := pos + |PairText(kv)|;
    PairTextSlices(m, pos, kv);
    WordRunOf(m, pos, kv.0);
    assert SeparatorAt(m, e, e, e + 1);
    if QuotedRaw(kv.1) {
      QuotedValueOf(m, e + 1, kv.1);
    } else {
      PlainValueOf(m, e + 1, kv.1);
    }
    MatchAtOf(m, pos, e, e, e + 1, end);
  }

  /** The scan moves on by one character where no key starts. */
  lemma ScanSkip(m: string, pos: nat)
    requires pos < |m| && !Text.IsWordChar(m[pos])
    ensures ScanFrom(m, pos) == ScanFrom(m, pos + 1)
  {
    assert MatchAt(m, pos).None?;
  }

  /** The scan keeps the pair matched at `pos` and resumes where it ends. */
  lemma ScanMatch(m: string, pos: nat, kv: (string, string), end: nat)
    requires pos < |m| && MatchAt(m, pos) == Some((kv.0, kv.1, end))
    ensures end <= |m| && ScanFrom(m, pos) == [kv] + ScanFrom(m, end)
  {
  }

  /** A pair matched at `pos` and followed by a blank: the scan keeps it and steps over the blank. */
  lemma ScanStep(m: string, pos: nat, kv: (string, string), end: nat)
    requires pos < |m| && MatchAt(m, pos) == Some((kv.0, kv.1, end))
    requires end < |m| && m[end] == ' '
    ensures ScanFrom(m, pos) == [kv] + ScanFrom(m, end + 1)
  {
    ScanMatch(m, pos, kv, end);
    ScanSkip(m, end);
  }

  /** Where the first of several written pairs ends, the space after it, and the rest. */
  lemma JoinedSplit(m: string, pos: nat, ps: seq<(string, string)>)
    requires |ps| > 1 && pos <= |m| && m[pos..] == Joined(ps)
    ensures var end := pos + |PairText(ps[0])|;
            end < |m| && m[pos..end] == PairText(ps[0]) && m[end] == ' ' && m[end + 1..] == Joined(ps[1..])
  {
    var w := PairText(ps[0]);
    var rest := Joined(ps[1..]);
    var end := pos + |w|;
    assert m[pos..] == w + " " + rest;
    assert m[pos..end] == (w + " " + rest)[..|w|];
    assert m[end] == (w + " " + rest)[|w|];
    assert m[end + 1..] == (w + " " + rest)[|w| + 1..];
  }

  /** A single well-formed pair that ends the markup is the last thing the scan finds. */
  lemma ScanLast(m: string, pos: nat, kv: (string, string))
    requires WellFormedPair(kv) && pos <= |m| && m[pos..] == PairText(kv)
    ensures ScanFrom(m, pos) == [kv]
  {
    assert m[pos..pos + |PairText(kv)|] == PairText(kv);
    PairMatched(m, pos, kv);
    ScanMatch(m, pos, kv, |m|);
  }

  /** A well-formed pair followed by a space: the scan keeps it and resumes after the space. */
  lemma PairScanned(m: string, pos: nat, kv: (string, string), end: nat)
    requires WellFormedPair(kv) && end == pos + |PairText(kv)|
    requires end < |m| && m[pos..end] == PairText(kv) && m[end] == ' '
    ensures ScanFrom(m, pos) == [kv] + ScanFrom(m, end + 1)
  {
    PairMatched(m, pos, kv);
    ScanStep(m, pos, kv, end);
  }

  /** `scan` finds each pair of a blank-separated list of well-formed pairs, in order, and nothing else. */
  lemma {:induction false} ScanJoined(m: string, pos: nat, ps: seq<(string, string)>)
    requires pos <= |m| && m[pos..] == Joined(ps)
    requires forall i :: 0 <= i < |ps| ==> WellFormedPair(ps[i])
    ensures ScanFrom(m, pos) == ps
    decreases |ps|
  {
    if |ps| == 1 {
      ScanLast(m, pos, ps[0]);
    } else if |ps| > 1 {
      var end := ScanFirstOfJoined(m, pos, ps);
      ScanJoined(m, end + 1, ps[1..]);
      assert [ps[0]] + ps[1..] == ps;
    }
  }

  /** The first of several written pairs is scanned, and the scan resumes at the rest. */
  lemma ScanFirstOfJoined(m: string, pos: nat, ps: seq<(string, string)>) returns (end: nat)
    requires |ps| > 1 && pos <= |m| && m[pos..] == Joined(ps)
    requires forall i :: 0 <= i < |ps| ==> WellFormedPair(ps[i])
    ensures end < |m| && m[end + 1..] == Joined(ps[1..])
    ensures forall i :: 0 <= i < |ps[1..]| ==> WellFormedPair(ps[1..][i])
    ensures ScanFrom(m, pos) == [ps[0]] + ScanFrom(m, end + 1)
  {
    end := pos + |PairText(ps[0])|;
    JoinedSplit(m, pos, ps);
    PairScanned(m, pos, ps[0], end);
  }

  /** Written pairs start with a word character, end with neither a blank nor NUL, and hold no line feed. */
  lemma {:induction false} JoinedShape(ps: seq<(string, string)>)
    requires ps != [] && forall i :: 0 <= i < |ps| ==> WellFormedPair(ps[i])
    ensures var m := Joined(ps);
            |m| > 0 && Text.IsWordChar(m[0]) && !Text.IsStripChar(m[|m| - 1]) && '\n' !in m
    decreases |ps|
  {
    var kv := ps[0];
    var w := PairText(kv);
    assert WellFormedPair(kv);
    assert w[0] == kv.0[0] && w[|w| - 1] == kv.1[|kv.1| - 1];
    assert !Text.IsStripChar(kv.1[|kv.1| - 1]) by {
      if PlainRaw(kv.1) { assert !Text.IsStripChar(kv.1[|kv.1| - 1]); }
    }
    assert '\n' !in kv.0 by {
      forall i | 0 <= i < |kv.0| ensures kv.0[i] != '\n' { assert Text.IsWordChar(kv.0[i]); }
    }
    assert '\n' !in w;
    if |ps| > 1 {
      JoinedShape(ps[1..]);
      var rest := Joined(ps[1..]);
      assert Joined(ps) == w + " " + rest;
      assert Joined(ps)[0] == w[0];
      assert Joined(ps)[|Joined(ps)| - 1] == rest[|rest| - 1];
    }
  }

  /** Without a quote at a line start from `p` on, there is no quoted form from `p` on. */
  lemma {:induction false} NoQuoteAtLineStart(m: string, p: nat)
    requires forall i :: p <= i < |m| ==> !QuoteAtLineStart(m, i)
    ensures QuotedFrom(m, p).None?
    decreases |m| - p
  {
    if p < |m| {
      NoQuoteAtLineStart(m, p + 1);
    }
  }

  /** A text starting with a word character and holding no line feed is not the quoted form. */
  lemma NotQuotedForm(m: string)
    requires |m| > 0 && Text.IsWordChar(m[0]) && '\n' !in m
    ensures Quoted(m).None?
  {
    forall i | 0 <= i < |m| ensures !QuoteAtLineStart(m, i) {
      if i > 0 {
        assert m[i - 1] in m;
      }
    }
    NoQuoteAtLineStart(m, 0);
  }

  /** Such a text is left alone by `strip` and is read as pairs. */
  lemma PairFormText(m: string)
    requires |m| > 0 && Text.IsWordChar(m[0]) && !Text.IsStripChar(m[|m| - 1]) && '\n' !in m
    ensures ParseAttrs(m) == Assign(Scan(m))
  {
    Text.StripOfTrimmed(m);
    NotQuotedForm(m);
  }

  /** A markup of blank-separated well-formed pairs stores exactly what `Assign` makes of those pairs. */
  lemma PairFormAttrs(ps: seq<(string, string)>)
    requires ps != [] && forall i :: 0 <= i < |ps| ==> WellFormedPair(ps[i])
    ensures ParseAttrs(Joined(ps)) == Assign(ps)
  {
    var m := Joined(ps);
    JoinedShape(ps);
    PairFormText(m);
    assert m[0..] == m;
    ScanJoined(m, 0, ps);
  }

  /** The key/value example of the tag's usage notes. */
  const DocumentedPairs: seq<(string, string)> :=
    [("command", "\"ls -la\""), ("directory", "\"~/Desktop\""), ("text", "\"List in iTerm\""), ("language", "\"zsh\"")]

  /** The markup the example pairs spell, one written pair at a time. */
  lemma DocumentedJoined()
    ensures Joined(DocumentedPairs)
            == "command:\"ls -la\"" + " " + "directory:\"~/Desktop\"" + " " + "text:\"List in iTerm\"" + " " + "language:\"zsh\""
  {
    var ps := DocumentedPairs;
    assert PairText(ps[0]) == "command:\"ls -la\"";
    assert PairText(ps[1]) == "directory:\"~/Desktop\"";
    assert PairText(ps[2]) == "text:\"List in iTerm\"";
    assert PairText(ps[3]) == "language:\"zsh\"";
    assert Joined(ps) == PairText(ps[0]) + " " + (PairText(ps[1]) + " " + (PairText(ps[2]) + " " + PairText(ps[3])));
  }

  lemma DocumentedWellFormed()
    ensures forall i :: 0 <= i < |DocumentedPairs| ==> WellFormedPair(DocumentedPairs[i])
  {
    assert WellFormedPair(("command", "\"ls -la\""));
    assert WellFormedPair(("directory", "\"~/Desktop\""));
    assert WellFormedPair(("text", "\"List in iTerm\""));
    assert WellFormedPair(("language", "\"zsh\""));
  }

  /** The values stored from the example pairs, quotes removed. */
  lemma DocumentedAssign()
    ensures Assign(DocumentedPairs)
            == map["command" := "ls -la", "directory" := "~/Desktop", "text" := "List in iTerm", "language" := "zsh"]
  {
    var q := ['"'];
    assert DocumentedPairs[0].1 == q + "ls -la" + q;
    assert DocumentedPairs[1].1 == q + "~/Desktop" + q;
    assert DocumentedPairs[2].1 == q + "List in iTerm" + q;
    assert DocumentedPairs[3].1 == q + "zsh" + q;
    assert DocumentedPairs == [("command", q + "ls -la" + q), ("directory", q + "~/Desktop" + q),
                               ("text", q + "List in iTerm" + q), ("language", q + "zsh" + q)];
    QuotedFour("command", "ls -la", "directory", "~/Desktop", "text", "List in iTerm", "language", "zsh");
  }

  /** Four pairs with double-quoted values free of backslashes store their bodies, in order. */
  lemma QuotedFour(k1: string, b1: string, k2: string, b2: string, k3: string, b3: string, k4: string, b4: string)
    requires '\\' !in b1 && '\\' !in b2 && '\\' !in b3 && '\\' !in b4
    ensures var q := ['"'];
            Assign([(k1, q + b1 + q), (k2, q + b2 + q), (k3, q + b3 + q), (k4, q + b4 + q)])
            == map[k1 := b1][k2 := b2][k3 := b3][k4 := b4]
  {
    var q := ['"'];
    CleanQuotedValue('"', b1);
    CleanQuotedValue('"', b2);
    CleanQuotedValue('"', b3);
    CleanQuotedValue('"', b4);
    AssignFour((k1, q + b1 + q), (k2, q + b2 + q), (k3, q + b3 + q), (k4, q + b4 + q));
  }

  /** Four pairs are stored in order, a later key overwriting an earlier one. */
  lemma AssignFour(a: (string, string), b: (string, string), c: (string, string), d: (string, string))
    ensures Assign([a, b, c, d])
            == map[a.0 := CleanValue(a.1)][b.0 := CleanValue(b.1)][c.0 := CleanValue(c.1)][d.0 := CleanValue(d.1)]
  {
    assert [a, b, c, d][..3] == [a, b, c];
    assert [a, b, c][..2] == [a, b];
    assert [a, b][..1] == [a];
    assert [a][..0] == [];
    assert Assign([a]) == map[a.0 := CleanValue(a.1)];
    assert Assign([a, b]) == Assign([a])[b.0 := CleanValue(b.1)];
    assert Assign([a, b, c]) == Assign([a, b])[c.0 := CleanValue(c.1)];
  }

  /** `command:"ls -la" directory:"~/Desktop" text:"List in iTerm" language:"zsh"` stores its four values without the quotes. */
  lemma DocumentedPairForm()
    ensures ParseAttrs("command:\"ls -la\"" + " " + "directory:\"~/Desktop\"" + " " + "text:\"List in iTerm\"" + " " + "language:\"zsh\"")
            == map["command" := "ls -la", "directory" := "~/Desktop", "text" := "List in iTerm", "language" := "zsh"]
  {
    DocumentedJoined();
    DocumentedWellFormed();
    PairFormAttrs(DocumentedPairs);
    DocumentedAssign();
  }


  /** `s.gsub(/\\q/, q)`: each backslash followed by `q` becomes `q`, left to right. */
  function Unescape(s: string, q: char): (r: string)
    ensures |r| <= |s|
  {
    if |s| >= 2 && s[0] == '\\' && s[1] == q then [q] + Unescape(s[2..], q)
    else if s == [] then []
    else [s[0]] + Unescape(s[1..], q)
  }

  /** `v[1..-2]` when `v` starts with a quote: the outer characters go; Ruby gives `""` for a lone quote. */
  function Unquote(v: string): string
  {
    if |v| > 0 && Text.IsQuote(v[0]) then (if |v| >= 2 then v[1..|v| - 1] else "") else v
  }

  /** iterm.rb lines 49-54: the stored value of a raw value. */
  function CleanValue(raw: string): string
  {
    Unescape(Unescape(Unquote(Text.Strip(raw)), '"'), '\'')
  }

  /** A text without backslashes is left alone by the unescaping. */
  lemma {:induction false} UnescapePlain(s: string, q: char)
    requires '\\' !in s
    ensures Unescape(s, q) == s
  {
    if s != [] {
      assert s[0] in s;
      assert forall x :: x in s[1..] ==> x in s;
      UnescapePlain(s[1..], q);
    }
  }

  /** A quoted value without backslashes is stored as the text between its quotes. */
  lemma CleanQuotedValue(q: char, body: string)
    requires Text.IsQuote(q) && '\\' !in body
    ensures CleanValue([q] + body + [q]) == body
  {
    var raw := [q] + body + [q];
    Text.StripOfTrimmed(raw);
    assert Unquote(raw) == body;
    UnescapePlain(body, '"');
    UnescapePlain(body, '\'');
  }

  /** An escaped quote after plain text becomes the quote itself. */
  lemma UnescapeEscaped(a: string, q: char, b: string)
    requires '\\' !in a
    ensures Unescape(a + ['\\', q] + b, q) == a + [q] + Unescape(b, q)
    decreases |a|
  {
    var s := a + ['\\', q] + b;
    if a == [] {
      assert s[2..] == b;
    } else {
      assert s[0] == a[0] && a[0] in a;
      assert s[1..] == a[1..] + ['\\', q] + b;
      assert forall x :: x in a[1..] ==> x in a;
      UnescapeEscaped(a[1..], q, b);
      assert [a[0]] + a[1..] == a;
    }
  }

  // ------------------------------------------------------------------
  // Attributes
  // ------------------------------------------------------------------

  /** The attributes after storing the pairs in order (iterm.rb lines 48-56). */
  function Assign(pairs: seq<(string, string)>): map<string, string>
  {
    if pairs == [] then map[]
    else Assign(pairs[..|pairs| - 1])[pairs[|pairs| - 1].0 := CleanValue(pairs[|pairs| - 1].1)]
  }

  /** Every key of the markup is stored, and no other. */
  lemma {:induction false} AssignKeys(pairs: seq<(string, string)>, key: string)
    ensures key in Assign(pairs) <==> exists i :: 0 <= i < |pairs| && pairs[i].0 == key
  {
    if pairs != [] {
      var init := pairs[..|pairs| - 1];
      AssignKeys(init, key);
      if key in Assign(init) {
        var i :| 0 <= i < |init| && init[i].0 == key;
        assert pairs[i] == init[i];
      }
      if exists i :: 0 <= i < |pairs| - 1 && pairs[i].0 == key {
        var i :| 0 <= i < |pairs| - 1 && pairs[i].0 == key;
        assert init[i] == pairs[i];
      }
    }
  }

  /** The last pair with a key decides its value: a later duplicate overwrites an earlier one. */
  lemma {:induction false} AssignLastWins(pairs: seq<(string, string)>, j: nat)
    requires j < |pairs|
    requires forall i :: j < i < |pairs| ==> pairs[i].0 != pairs[j].0
    ensures pairs[j].0 in Assign(pairs) && Assign(pairs)[pairs[j].0] == CleanValue(pairs[j].1)
  {
    if j < |pairs| - 1 {
      var init := pairs[..|pairs| - 1];
      assert init[j] == pairs[j];
      AssignLastWins(init, j);
    }
  }

  const DefaultText: string := "Run in iTerm"
  const DefaultLanguage: string := "bash"

  /** The attributes parsed from the stripped markup, before defaults. */
  function ParseAttrs(markup: string): map<string, string>
  {
    var m := Text.Strip(markup);
    match Quoted(m)
    case Some(command) => map["command" := command]
    case None => Assign(Scan(m))
  }

  /** iterm.rb lines 60-61: `||=` only fills a missing `text` or `language`, so an explicit `""` stays. */
  function WithDefaults(attrs: map<string, string>): (r: map<string, string>)
    ensures "text" in r && r["text"] == if "text" in attrs then attrs["text"] else DefaultText
    ensures "language" in r && r["language"] == if "language" in attrs then attrs["language"] else DefaultLanguage
    ensures forall k :: k in attrs ==> k in r && r[k] == attrs[k]
    ensures forall k :: k in r ==> k in attrs || k == "text" || k == "language"
  {
    var a := if "text" in attrs then attrs else attrs["text" := DefaultText];
    if "language" in a then a else a["language" := DefaultLanguage]
  }

  /** The quoted form stores just the command; the pair form is not consulted. */
  lemma QuotedFormOnlyCommand(markup: string)
    requires Quoted(Text.Strip(markup)).Some?
    ensures ParseAttrs(markup) == map["command" := Quoted(Text.Strip(markup)).value]
  {
  }

  // ------------------------------------------------------------------
  // Output
  // ------------------------------------------------------------------

  const UrlPrefix: string := "iterm2:/command?c="

  /** iterm.rb lines 70-75: the command, then `&d=` and the directory only for a present, non-empty directory. */
  function ItermUrl(command: string, directory: Option<string>): string
  {
    UrlPrefix + Escape.ItermEncode(command)
    + if directory.Some? && directory.value != "" then "&d=" + Escape.ItermEncode(directory.value) else ""
  }

  /** The text before the first `&`, and the rest from it. */
  function SplitAtAmpersand(s: string): (r: (string, string))
    ensures r.0 + r.1 == s
  {
    if s == [] then ("", "")
    else if s[0] == '&' then ("", s)
    else
      var r := SplitAtAmpersand(s[1..]);
      Text.AppendAssociative([s[0]], r.0, r.1);
      assert [s[0]] + s[1..] == s;
      ([s[0]] + r.0, r.1)
  }

  /** What a reader of the query decodes: the bytes of `c`, and those of `d` when a `&d=` follows. */
  function DecodeParams(x: string): (Option<seq<Escape.byte>>, Option<Option<seq<Escape.byte>>>)
  {
    var (c, rest) := SplitAtAmpersand(x);
    (Escape.PercentDecode(c, false),
     if rest == "" then None
     else if "&d=" <= rest then Some(Escape.PercentDecode(rest[3..], false))
     else Some(None))
  }

  function DecodeUrl(u: string): Option<(Option<seq<Escape.byte>>, Option<Option<seq<Escape.byte>>>)>
  {
    if UrlPrefix <= u then Some(DecodeParams(u[|UrlPrefix|..])) else None
  }

  lemma {:induction false} SplitBeforeAmpersand(a: string, b: string)
    requires '&' !in a && (b == "" || b[0] == '&')
    ensures SplitAtAmpersand(a + b) == (a, b)
  {
    if a == [] {
      assert a + b == b;
    } else {
      var s := a + b;
      assert s[0] == a[0] && a[0] in a;
      assert s[1..] == a[1..] + b;
      assert forall x :: x in a[1..] ==> x in a;
      SplitBeforeAmpersand(a[1..], b);
      assert [a[0]] + a[1..] == a;
    }
  }

  lemma DecodeUrlOfPrefixed(x: string)
    ensures DecodeUrl(UrlPrefix + x) == Some(DecodeParams(x))
  {
    assert (UrlPrefix + x)[|UrlPrefix|..] == x;
  }

  lemma DecodeCommandOnly(command: string)
    ensures DecodeParams(Escape.ItermEncode(command)) == (Some(Escape.Utf8Encode(command)), None)
  {
    var c := Escape.ItermEncode(command);
    Escape.ItermEncodeHasNoAmpersand(command);
    SplitBeforeAmpersand(c, "");
    assert c + "" == c;
    Escape.ItermEncodeRoundTrip(command);
  }

  lemma DecodeCommandAndDirectory(command: string, directory: string)
    ensures DecodeParams(Escape.ItermEncode(command) + ("&d=" + Escape.ItermEncode(directory)))
            == (Some(Escape.Utf8Encode(command)), Some(Some(Escape.Utf8Encode(directory))))
  {
    var c := Escape.ItermEncode(command);
    var tail := "&d=" + Escape.ItermEncode(directory);
    Escape.ItermEncodeHasNoAmpersand(command);
    SplitBeforeAmpersand(c, tail);
    Escape.ItermEncodeRoundTrip(command);
    assert "&d=" <= tail && tail[3..] == Escape.ItermEncode(directory);
    Escape.ItermEncodeRoundTrip(directory);
  }

  /** The link carries the command, and the directory exactly when one is given, without loss. */
  lemma ItermUrlRoundTrip(command: string, directory: Option<string>)
    ensures DecodeUrl(ItermUrl(command, directory))
            == Some((Some(Escape.Utf8Encode(command)),
                     if directory.Some? && directory.value != "" then Some(Some(Escape.Utf8Encode(directory.value))) else None))
  {
    var c := Escape.ItermEncode(command);
    if directory.Some? && directory.value != "" {
      var tail := "&d=" + Escape.ItermEncode(directory.value);
      Text.AppendAssociative(UrlPrefix, c, tail);
      DecodeUrlOfPrefixed(c + tail);
      DecodeCommandAndDirectory(command, directory.value);
    } else {
      assert UrlPrefix + c + "" == UrlPrefix + c;
      DecodeUrlOfPrefixed(c);
      DecodeCommandOnly(command);
    }
  }

  /** No `+` reaches the link: every space is `%20`. */
  lemma ItermUrlHasNoPlus(command: string, directory: Option<string>)
    ensures '+' !in ItermUrl(command, directory)
  {
    Escape.ItermEncodeHasNoPlus(command);
    if directory.Some? && directory.value != "" {
      Escape.ItermEncodeHasNoPlus(directory.value);
    }
  }

  /** iterm.rb lines 78-79: the language follows the opening fence unless it is empty. */
  function OpeningFence(language: string): (r: string)
    ensures language == "" <==> r == "```"
    ensures |r| == 3 + |language| && r[3..] == language
  {
    if language == "" then "```" else "```" + language
  }

  /** The fenced code block: the command appears as it is. */
  function CodeBlock(language: string, command: string): string
  {
    OpeningFence(language) + "\n" + command + "\n```\n\n"
  }

  /** The run button: the link, and the button text HTML-escaped. */
  function RunButton(url: string, text: string): string
  {
    "<div class=\"iterm-command\"><a href=\"" + url + "\" class=\"iterm-run-button\">"
    + Escape.EscapeHtml(text) + "</a></div>"
  }

  /** `@attrs` field by field, with line 65's `|| ''` and line 78's `|| 'bash'`. */
  function Command(attrs: map<string, string>): string
  {
    if "command" in attrs then attrs["command"] else ""
  }

  function Directory(attrs: map<string, string>): Option<string>
  {
    if "directory" in attrs then Some(attrs["directory"]) else None
  }

  function Language(attrs: map<string, string>): string
  {
    if "language" in attrs then attrs["language"] else DefaultLanguage
  }

  /** iterm.rb lines 42-57: the quoted form's command, or each scanned pair stored in turn (a later key overwrites). */
  method ReadAttributes(markup: string) returns (attrs: map<string, string>)
    ensures attrs == ParseAttrs(markup)
  {
    var m := Text.Strip(markup);
    var quoted := Quoted(m);
    if quoted.Some? {
      return map["command" := quoted.value];
    }
    var pairs := Scan(m);
    attrs := map[];
    var i := 0;
    while i < |pairs|
      invariant 0 <= i <= |pairs|
      invariant attrs == Assign(pairs[..i])
    {
      var (key, raw) := pairs[i];
      var v := CleanValue(raw);
      assert pairs[..i + 1][..i] == pairs[..i];
      attrs := attrs[key := v];
      i := i + 1;
    }
    assert pairs[..i] == pairs;
  }

  class ItermTag {
    var attrs: map<string, string>

    /** `initialize`: the quoted form or the pairs, stored one by one, then the defaults. */
    constructor (markup: string)
      ensures attrs == WithDefaults(ParseAttrs(markup))
    {
      var a := ReadAttributes(markup);
      if "text" !in a {
        a := a["text" := DefaultText];
      }
      if "language" !in a {
        a := a["language" := DefaultLanguage];
      }
      attrs := a;
    }

    /**
     * `render`: the fence, the command as it is, the closing fence, then the
     * button linking to the encoded command with its text HTML-escaped.
     */
    method Render() returns (out: string)
      requires "text" in attrs
      ensures out == CodeBlock(Language(attrs), Command(attrs))
                     + RunButton(ItermUrl(Command(attrs), Directory(attrs)), attrs["text"])
    {
      var command := if "command" in attrs then attrs["command"] else "";
      var directory := if "directory" in attrs then Some(attrs["directory"]) else None;
      var url := UrlPrefix + Escape.ItermEncode(command);
      if directory.Some? && directory.value != "" {
        url := url + ("&d=" + Escape.ItermEncode(directory.value));
      }
      var fence := if "language" in attrs then attrs["language"] else DefaultLanguage;
      out := CodeBlock(fence, command) + RunButton(url, attrs["text"]);
    }
  }
}
