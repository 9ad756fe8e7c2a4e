/**
 * String operations of Ruby's core library that the tags rely on:
 * `strip`, `chomp`, `split` with a literal separator, `String#>`, ASCII case
 * mapping, `gsub` of one character and the line structure behind `^` and `$`.
 */
module Text {

  /**
   * The double quote that closes an interpolated HTML attribute value.  The
   * markup pieces that follow a value start with it as a separate term, so
   * that their first character is known without unfolding the long literal.
   */
  const DoubleQuote: string := "\""

  /** Ruby's regular-expression class `\s`: space, tab, line feed, vertical tab, form feed, carriage return. */
  predicate IsSpace(c: char) {
    c == ' ' || c == '\t' || c == '\n' || c == '\U{000B}' || c == '\U{000C}' || c == '\r'
  }

  /** The characters `String#strip` removes: those of `\s` and NUL. */
  predicate IsStripChar(c: char) {
    IsSpace(c) || c == '\0'
  }

  predicate AllStripChars(s: string) {
    forall i :: 0 <= i < |s| ==> IsStripChar(s[i])
  }

  /** `String#lstrip`: drops the leading strip characters. */
  function LStrip(s: string): string
  {
    if s == [] || !IsStripChar(s[0]) then s else LStrip(s[1..])
  }

  /** `String#rstrip`: drops the trailing strip characters. */
  function RStrip(s: string): string
  {
    if s == [] || !IsStripChar(s[|s| - 1]) then s else RStrip(s[..|s| - 1])
  }

  /** `String#strip`. */
  function Strip(s: string): string
  {
    RStrip(LStrip(s))
  }

  /** `lstrip` keeps a suffix, drops only strip characters, and the suffix does not start with one. */
  lemma {:induction false} LStripSuffix(s: string)
    ensures var r := LStrip(s);
            |r| <= |s| && r == s[|s| - |r|..] && AllStripChars(s[..|s| - |r|])
            && (r == [] || !IsStripChar(r[0]))
  {
    if s != [] && IsStripChar(s[0]) {
      LStripSuffix(s[1..]);
      var t := LStrip(s[1..]);
      assert s[..|s| - |t|] == [s[0]] + s[1..][..|s| - 1 - |t|];
    }
  }

  /** `rstrip` keeps a prefix, drops only strip characters, and the prefix does not end with one. */
  lemma {:induction false} RStripPrefix(s: string)
    ensures var r := RStrip(s);
            |r| <= |s| && r == s[..|r|] && AllStripChars(s[|r|..])
            && (r == [] || !IsStripChar(r[|r| - 1]))
  {
    if s != [] && IsStripChar(s[|s| - 1]) {
      RStripPrefix(s[..|s| - 1]);
      var t := RStrip(s[..|s| - 1]);
      assert s[|t|..] == s[..|s| - 1][|t|..] + [s[|s| - 1]];
    }
  }

  /** What `strip` keeps neither starts nor ends with a strip character. */
  lemma StripEnds(s: string)
    ensures |Strip(s)| <= |s|
    ensures Strip(s) == [] || (!IsStripChar(Strip(s)[0]) && !IsStripChar(Strip(s)[|Strip(s)| - 1]))
  {
    LStripSuffix(s);
    RStripPrefix(LStrip(s));
  }

  /** A string without strip characters at its ends is its own `strip`. */
  lemma StripOfTrimmed(s: string)
    requires s == [] || (!IsStripChar(s[0]) && !IsStripChar(s[|s| - 1]))
    ensures Strip(s) == s
  {
  }

  /** `strip` leaves nothing exactly when the string is all strip characters. */
  lemma StripEmptyIff(s: string)
    ensures Strip(s) == [] <==> AllStripChars(s)
  {
    LStripSuffix(s);
    RStripPrefix(LStrip(s));
    if AllStripChars(s) {
      LStripAppend(s, []);
      assert s + [] == s;
    }
  }

  /** Every character `strip` removes is a strip character; what is kept is a contiguous piece of the input. */
  lemma StripRemovesOnlyStripChars(s: string)
    ensures exists k :: 0 <= k <= |s| - |Strip(s)| && s[k..k + |Strip(s)|] == Strip(s)
                        && AllStripChars(s[..k]) && AllStripChars(s[k + |Strip(s)|..])
  {
    LStripSuffix(s);
    var l := LStrip(s);
    RStripPrefix(l);
    var r := RStrip(l);
    var k := |s| - |l|;
    assert s[k..k + |r|] == l[..|r|];
    assert s[k + |r|..] == l[|r|..];
  }

  /** `lstrip` of a concatenation: the right part only matters once the left part is all strip characters. */
  lemma {:induction false} LStripAppend(s: string, w: string)
    ensures LStrip(s + w) == if AllStripChars(s) then LStrip(w) else LStrip(s) + w
  {
    if s == [] {
      assert s + w == w;
    } else if IsStripChar(s[0]) {
      assert (s + w)[1..] == s[1..] + w;
      LStripAppend(s[1..], w);
      assert AllStripChars(s) <==> AllStripChars(s[1..]) by {
        if AllStripChars(s[1..]) {
          forall i | 0 <= i < |s| ensures IsStripChar(s[i]) {
            if i > 0 { assert s[i] == s[1..][i - 1]; }
          }
        }
        if AllStripChars(s) {
          forall i | 0 <= i < |s[1..]| ensures IsStripChar(s[1..][i]) {
            assert s[1..][i] == s[i + 1];
          }
        }
      }
    }
  }

  /** `rstrip` ignores trailing strip characters appended to its argument. */
  lemma {:induction false} RStripAppend(s: string, w: string)
    requires AllStripChars(w)
    ensures RStrip(s + w) == RStrip(s)
  {
    if w != [] {
      assert (s + w)[|s + w| - 1] == w[|w| - 1];
      assert (s + w)[..|s + w| - 1] == s + w[..|w| - 1];
      RStripAppend(s, w[..|w| - 1]);
    } else {
      assert s + w == s;
    }
  }

  /** Trailing whitespace makes no difference to `strip`. */
  lemma StripAppend(s: string, w: string)
    requires AllStripChars(w)
    ensures Strip(s + w) == Strip(s)
  {
    LStripAppend(s, w);
    if AllStripChars(s) {
      LStripSuffix(w);
      LStripSuffix(s);
    } else {
      RStripAppend(LStrip(s), w);
    }
  }

  /** `String#chomp(c)` for a one-character argument: drops one trailing `c`, if there is one. */
  function Chomp(s: string, c: char): (r: string)
    ensures |s| > 0 && s[|s| - 1] == c ==> r + [c] == s
    ensures !(|s| > 0 && s[|s| - 1] == c) ==> r == s
  {
    if |s| > 0 && s[|s| - 1] == c then s[..|s| - 1] else s
  }

  /** The pieces joined back with the separator. */
  function Join(ps: seq<string>, sep: string): string
  {
    if |ps| == 0 then []
    else if |ps| == 1 then ps[0]
    else ps[0] + sep + Join(ps[1..], sep)
  }

  /**
   * The pieces of `s` between the leftmost non-overlapping occurrences of `sep`,
   * empty pieces included (Ruby's `split` with a negative limit).
   */
  function SplitAll(s: string, sep: string): (r: seq<string>)
    requires |sep| > 0
    ensures |r| >= 1
    ensures Join(r, sep) == s
    decreases |s|
  {
    if |s| < |sep| then [s]
    else if s[..|sep|] == sep then
      var t := SplitAll(s[|sep|..], sep);
      assert ([[]] + t)[1..] == t;
      assert s == sep + s[|sep|..];
      [[]] + t
    else
      var t := SplitAll(s[1..], sep);
      var r := [[s[0]] + t[0]] + t[1..];
      assert r[1..] == t[1..];
      assert |t| > 1 ==> Join(t, sep) == t[0] + sep + Join(t[1..], sep);
      assert s == [s[0]] + s[1..];
      r
  }

  /** Drops the empty strings at the end of a list of pieces. */
  function DropTrailingEmpty(ps: seq<string>): (r: seq<string>)
    ensures |r| <= |ps| && r == ps[..|r|]
    ensures r == [] || r[|r| - 1] != []
    ensures forall i :: |r| <= i < |ps| ==> ps[i] == []
  {
    if ps == [] || ps[|ps| - 1] != [] then ps else DropTrailingEmpty(ps[..|ps| - 1])
  }

  /** `String#split(/sep/)` for a literal separator: trailing empty pieces are suppressed. */
  function Split(s: string, sep: string): seq<string>
    requires |sep| > 0
  {
    DropTrailingEmpty(SplitAll(s, sep))
  }

  /** The lines of `s`: the pieces between line feeds. `^` and `$` in a Ruby regex match at their ends. */
  function Lines(s: string): seq<string>
  {
    SplitAll(s, "\n")
  }

  /** The first position of `c` in `s`. */
  function IndexOf(s: string, c: char): (i: nat)
    requires c in s
    ensures i < |s| && s[i] == c && c !in s[..i]
  {
    if s[0] == c then 0
    else
      var i := IndexOf(s[1..], c);
      assert s[..i + 1] == [s[0]] + s[1..][..i];
      i + 1
  }

  /** A text without a line feed is a single line. */
  lemma {:induction false} SplitAllNoNewline(s: string)
    requires '\n' !in s
    ensures SplitAll(s, "\n") == [s]
    decreases |s|
  {
    if |s| >= 1 {
      assert s[0] in s && s[..1] == [s[0]];
      SplitAllNoNewline(s[1..]);
      assert [s[0]] + s[1..] == s;
    }
  }

  /** `sep` occurs in `s` at position `j`. */
  predicate OccursAt(s: string, sep: string, j: nat)
  {
    j + |sep| <= |s| && s[j..j + |sep|] == sep
  }

  /** A text in which the separator does not occur is a single piece. */
  lemma {:induction false} SplitAllNoSeparator(s: string, sep: string)
    requires |sep| > 0
    requires forall j :: 0 <= j < |s| ==> !OccursAt(s, sep, j)
    ensures SplitAll(s, sep) == [s]
    decreases |s|
  {
    if |s| >= |sep| {
      assert !OccursAt(s, sep, 0);
      forall j | 0 <= j < |s| - 1
        ensures !OccursAt(s[1..], sep, j)
      {
        assert !OccursAt(s, sep, j + 1);
        if j + |sep| <= |s| - 1 {
          assert s[1..][j..j + |sep|] == s[j + 1..j + 1 + |sep|];
        }
      }
      SplitAllNoSeparator(s[1..], sep);
      assert [s[0]] + s[1..] == s;
    }
  }

  /**
   * Splitting at the first occurrence of the separator: the piece before it,
   * then the pieces of the rest.
   */
  lemma {:induction false} SplitAllAtFirst(a: string, sep: string, b: string)
    requires |sep| > 0
    requires forall j :: 0 <= j < |a| ==> !OccursAt(a + sep + b, sep, j)
    ensures SplitAll(a + sep + b, sep) == [a] + SplitAll(b, sep)
    decreases |a|
  {
    var s := a + sep + b;
    if a == [] {
      assert s == sep + b;
      assert s[..|sep|] == sep && s[|sep|..] == b;
    } else {
      assert !OccursAt(s, sep, 0);
      var s' := a[1..] + sep + b;
      assert s[1..] == s';
      forall j | 0 <= j < |a| - 1
        ensures !OccursAt(s', sep, j)
      {
        assert !OccursAt(s, sep, j + 1);
        assert s'[j..j + |sep|] == s[j + 1..j + 1 + |sep|];
      }
      SplitAllAtFirst(a[1..], sep, b);
      assert s[0] == a[0] && [a[0]] + a[1..] == a;
    }
  }

  /** Splitting at the first line feed: the first line, then the lines of the rest. */
  lemma {:induction false} SplitAllAtNewline(a: string, b: string)
    requires '\n' !in a
    ensures SplitAll(a + "\n" + b, "\n") == [a] + SplitAll(b, "\n")
    decreases |a|
  {
    var s := a + "\n" + b;
    if a == [] {
      assert s[..1] == "\n" && s[1..] == b;
    } else {
      assert s[0] == a[0] && a[0] in a && s[..1] == [s[0]];
      assert s[1..] == a[1..] + "\n" + b;
      SplitAllAtNewline(a[1..], b);
      assert [s[0]] + a[1..] == a;
    }
  }

  /** Dropping trailing empty pieces after a leading piece `x`. */
  lemma {:induction false} DropTrailingEmptyCons(x: string, ps: seq<string>)
    ensures DropTrailingEmpty([x] + ps)
         == if DropTrailingEmpty(ps) == [] then DropTrailingEmpty([x]) else [x] + DropTrailingEmpty(ps)
    decreases |ps|
  {
    if ps == [] {
      assert [x] + ps == [x];
    } else if ps[|ps| - 1] == [] {
      assert ([x] + ps)[..|ps|] == [x] + ps[..|ps| - 1];
      DropTrailingEmptyCons(x, ps[..|ps| - 1]);
    }
  }

  predicate AllNewlines(s: string)
  {
    forall k :: 0 <= k < |s| ==> s[k] == '\n'
  }

  lemma AllNewlinesAround(a: string, c: string)
    requires '\n' !in a
    ensures AllNewlines(a + "\n" + c) <==> a == [] && AllNewlines(c)
  {
    var b := a + "\n" + c;
    if a != [] {
      assert a[0] in a && b[0] == a[0];
    } else {
      assert forall k :: 0 <= k < |c| ==> c[k] == b[k + 1];
    }
  }

  /** The pieces between line feeds are all empty exactly when the text is nothing but line feeds. */
  lemma {:induction false} SplitAllEmptyIffNewlines(b: string)
    ensures DropTrailingEmpty(SplitAll(b, "\n")) == [] <==> AllNewlines(b)
    decreases |b|
  {
    if '\n' !in b {
      SplitAllNoNewline(b);
      if b != [] {
        assert b[0] in b;
      }
    } else {
      var i := IndexOf(b, '\n');
      var a, c := b[..i], b[i + 1..];
      assert b == a + "\n" + c;
      SplitAllAtNewline(a, c);
      DropTrailingEmptyCons(a, SplitAll(c, "\n"));
      SplitAllEmptyIffNewlines(c);
      AllNewlinesAround(a, c);
    }
  }

  /** Ruby's `String#<`: lexicographic order on characters; a proper prefix is smaller. */
  predicate LexLess(a: string, b: string)
  {
    b != [] && (a == [] || a[0] < b[0] || (a[0] == b[0] && LexLess(a[1..], b[1..])))
  }

  /** Ruby's `String#>`. */
  predicate LexGreater(a: string, b: string)
  {
    LexLess(b, a)
  }

  lemma {:induction false} LexLessIrreflexive(a: string)
    ensures !LexLess(a, a)
  {
    if a != [] {
      LexLessIrreflexive(a[1..]);
    }
  }

  lemma {:induction false} LexLessTransitive(a: string, b: string, c: string)
    requires LexLess(a, b) && LexLess(b, c)
    ensures LexLess(a, c)
  {
    if a != [] && a[0] == b[0] && b[0] == c[0] {
      LexLessTransitive(a[1..], b[1..], c[1..]);
    }
  }

  lemma {:induction false} LexLessTotal(a: string, b: string)
    ensures a == b || LexLess(a, b) || LexLess(b, a)
  {
    if a != [] && b != [] && a[0] == b[0] {
      LexLessTotal(a[1..], b[1..]);
      if a[1..] == b[1..] {
        assert a == [a[0]] + a[1..] && b == [b[0]] + b[1..];
      }
    }
  }

  lemma {:induction false} LexLessAsymmetric(a: string, b: string)
    requires LexLess(a, b)
    ensures !LexLess(b, a)
  {
    if a != [] && a[0] == b[0] {
      LexLessAsymmetric(a[1..], b[1..]);
    }
  }

  predicate IsAsciiUpper(c: char) { 'A' <= c <= 'Z' }
  predicate IsAsciiLower(c: char) { 'a' <= c <= 'z' }
  predicate IsAsciiDigit(c: char) { '0' <= c <= '9' }
  predicate IsAsciiAlnum(c: char) { IsAsciiUpper(c) || IsAsciiLower(c) || IsAsciiDigit(c) }

  /** Ruby's regular-expression class `\w` (ASCII only, as Ruby has it by default). */
  predicate IsWordChar(c: char) { IsAsciiAlnum(c) || c == '_' }

  function LowerChar(c: char): (r: char)
    ensures IsAsciiUpper(c) ==> IsAsciiLower(r)
    ensures !IsAsciiUpper(c) ==> r == c
  {
    if IsAsciiUpper(c) then (c as int + 32) as char else c
  }

  function UpperChar(c: char): (r: char)
    ensures IsAsciiLower(c) ==> IsAsciiUpper(r)
    ensures !IsAsciiLower(c) ==> r == c
  {
    if IsAsciiLower(c) then (c as int - 32) as char else c
  }

  /** `String#downcase`, on ASCII letters. */
  function Downcase(s: string): (r: string)
    ensures |r| == |s|
    ensures forall i :: 0 <= i < |s| ==> r[i] == LowerChar(s[i])
  {
    seq(|s|, i requires 0 <= i < |s| => LowerChar(s[i]))
  }

  /** `String#upcase`, on ASCII letters. */
  function Upcase(s: string): (r: string)
    ensures |r| == |s|
    ensures forall i :: 0 <= i < |s| ==> r[i] == UpperChar(s[i])
  {
    seq(|s|, i requires 0 <= i < |s| => UpperChar(s[i]))
  }

  /** `String#capitalize`, on ASCII letters: first character upper case, the rest lower case. */
  function Capitalize(s: string): (r: string)
    ensures |r| == |s|
    ensures |s| > 0 ==> r[0] == UpperChar(s[0]) && r[1..] == Downcase(s[1..])
  {
    if s == [] then [] else [UpperChar(s[0])] + Downcase(s[1..])
  }

  /** `s.gsub(c, repl)` for a single character `c`. */
  function ReplaceChar(s: string, c: char, repl: string): (r: string)
    ensures c !in repl ==> c !in r
    ensures c !in s ==> r == s
    ensures |s| == 1 ==> r == if s[0] == c then repl else s
  {
    if s == [] then []
    else (if s[0] == c then repl else [s[0]]) + ReplaceChar(s[1..], c, repl)
  }

  /** A character in neither the input nor the replacement is not in the output. */
  lemma {:induction false} ReplaceCharKeepsOut(s: string, c: char, repl: string, d: char)
    requires d !in s && d !in repl
    ensures d !in ReplaceChar(s, c, repl)
  {
    if s != [] {
      assert s[0] in s;
      assert forall x :: x in s[1..] ==> x in s;
      ReplaceCharKeepsOut(s[1..], c, repl, d);
    }
  }

  lemma {:induction false} ReplaceCharAppend(a: string, b: string, c: char, repl: string)
    ensures ReplaceChar(a + b, c, repl) == ReplaceChar(a, c, repl) + ReplaceChar(b, c, repl)
  {
    if a != [] {
      assert (a + b)[0] == a[0];
      assert (a + b)[1..] == a[1..] + b;
      ReplaceCharAppend(a[1..], b, c, repl);
      AppendAssociative(if a[0] == c then repl else [a[0]], ReplaceChar(a[1..], c, repl), ReplaceChar(b, c, repl));
    } else {
      assert a + b == b;
    }
  }

  /** A double or single quote. */
  predicate IsQuote(c: char)
  {
    c == '"' || c == '\''
  }

  /** The end of the alphanumeric run that starts at `i`. */
  function AlnumRunEnd(s: string, i: nat): (q: nat)
    requires i <= |s|
    ensures i <= q <= |s|
    ensures forall j :: i <= j < q ==> IsAsciiAlnum(s[j])
    ensures q < |s| ==> !IsAsciiAlnum(s[q])
    decreases |s| - i
  {
    if i == |s| || !IsAsciiAlnum(s[i]) then i else AlnumRunEnd(s, i + 1)
  }

  /** The scan stops exactly at the first character that is neither a letter nor a digit. */
  lemma {:induction false} AlnumRunEndAt(s: string, i: nat, q: nat)
    requires i <= q <= |s|
    requires forall j :: i <= j < q ==> IsAsciiAlnum(s[j])
    requires q == |s| || !IsAsciiAlnum(s[q])
    ensures AlnumRunEnd(s, i) == q
    decreases q - i
  {
    if i < q {
      AlnumRunEndAt(s, i + 1, q);
    }
  }

  /** The index of the first line feed at or after `i`, or the end of the string. */
  function LineEnd(s: string, i: nat): (e: nat)
    requires i <= |s|
    ensures i <= e <= |s|
    ensures forall j :: i <= j < e ==> s[j] != '\n'
    ensures e < |s| ==> s[e] == '\n'
    decreases |s| - i
  {
    if i == |s| || s[i] == '\n' then i else LineEnd(s, i + 1)
  }

  /** The text up to (not including) the first occurrence of `c`. */
  function TakeUntil(s: string, c: char): (r: string)
    ensures r <= s && c !in r
  {
    if s == [] || s[0] == c then [] else [s[0]] + TakeUntil(s[1..], c)
  }

  lemma {:induction false} TakeUntilOf(a: string, c: char, b: string)
    requires c !in a && |b| > 0 && b[0] == c
    ensures TakeUntil(a + b, c) == a
  {
    if a != [] {
      assert (a + b)[1..] == a[1..] + b;
      TakeUntilOf(a[1..], c, b);
    }
  }

  lemma AppendAssociative(a: string, b: string, c: string)
    ensures a + b + c == a + (b + c)
  {
  }

  /** `String#end_with?`. */
  predicate EndsWith(s: string, suffix: string)
  {
    |suffix| <= |s| && s[|s| - |suffix|..] == suffix
  }

  /** `gsub(/(^["']|["']$)/, '')` on a line: one leading and one trailing quote removed. */
  function DropQuotes(s: string): string
  {
    var a := if |s| > 0 && IsQuote(s[0]) then 1 else 0;
    var b := if |s| > a && IsQuote(s[|s| - 1]) then |s| - 1 else |s|;
    s[a..b]
  }

  /** A leading and a trailing quote of either kind are both removed. */
  lemma DropQuotesUnwraps(p: char, t: string, q: char)
    requires IsQuote(p) && IsQuote(q)
    ensures DropQuotes([p] + t + [q]) == t
  {
    var s := [p] + t + [q];
    assert s[1..|s| - 1] == t;
  }

  /** A text that neither starts nor ends with a quote is kept as it is. */
  lemma DropQuotesOfUnquoted(s: string)
    requires s == [] || (!IsQuote(s[0]) && !IsQuote(s[|s| - 1]))
    ensures DropQuotes(s) == s
  {
  }
}
