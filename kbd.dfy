/**
 * The `kbd` tag: turns a keyboard shortcut written with symbols or words
 * (`^~@r`, `ctrl-cmd-f`, `Shift-/`) into `<kbd>` elements, one span per
 * combination of keys.
 */
module Kbd {
  import opened Common
  import Text

  // ------------------------------------------------------------ clean_combo

  /** A hyphen that `(?<=\S)-(?=\S)` matches: a non-space on both sides, in the string before any change. */
  predicate JoiningHyphen(s: string, i: int)
    requires 0 <= i < |s|
  {
    s[i] == '-' && 0 < i && i + 1 < |s| && !Text.IsSpace(s[i - 1]) && !Text.IsSpace(s[i + 1])
  }

  /** The first `gsub!` of `clean_combo`: every joining hyphen becomes a space, nothing else changes. */
  function Dehyphen(s: string): (r: string)
    ensures |r| == |s|
    ensures forall i :: 0 <= i < |s| ==> (r[i] != s[i] <==> JoiningHyphen(s, i))
    ensures forall i :: 0 <= i < |s| && r[i] != s[i] ==> r[i] == ' '
  {
    seq(|s|, i requires 0 <= i < |s| => if JoiningHyphen(s, i) then ' ' else s[i])
  }

  /** A hyphen left in place has a space or an end of the string beside it, so a second pass changes nothing. */
  lemma DehyphenIdempotent(s: string)
    ensures Dehyphen(Dehyphen(s)) == Dehyphen(s)
  {
    var r := Dehyphen(s);
    forall i | 0 <= i < |r|
      ensures !JoiningHyphen(r, i)
    {
    }
  }

  /** Rows of words, each with the replacement it gets. */
  type Table = seq<(set<string>, string)>

  /** The replacement the table gives a word: the first row holding the word, ignoring case; otherwise the word itself. */
  function Lookup(table: Table, w: string): string
  {
    if table == [] then w
    else if Text.Downcase(w) in table[0].0 then table[0].1
    else Lookup(table[1..], w)
  }

  /** The end of the run of `\w` characters that starts at `i`. */
  function RunEnd(s: string, i: nat): (j: nat)
    requires i <= |s|
    ensures i <= j <= |s|
    ensures forall k :: i <= k < j ==> Text.IsWordChar(s[k])
    ensures j == |s| || !Text.IsWordChar(s[j])
    decreases |s| - i
  {
    if i == |s| || !Text.IsWordChar(s[i]) then i else RunEnd(s, i + 1)
  }

  lemma RunEndUnique(s: string, i: nat, j: nat)
    requires i <= j <= |s|
    requires forall k :: i <= k < j ==> Text.IsWordChar(s[k])
    requires j == |s| || !Text.IsWordChar(s[j])
    ensures RunEnd(s, i) == j
  {
  }

  /**
   * Every maximal run of `\w` characters replaced through the table; every
   * other character kept. For ASCII text, a pattern `\b(w1|w2|...)\b` whose
   * words are made of `\w` characters matches exactly such a whole run: the
   * `\b` before it needs a non-word character (or the start) before the run,
   * the `\b` after it a non-word character (or the end) after it. Ruby's `\b`
   * also treats non-ASCII letters as word characters, and its `/i` folds a
   * few non-ASCII characters; neither is modelled here.
   */
  function Rewrite(s: string, table: Table): string
    decreases |s|
  {
    if s == [] then []
    else if !Text.IsWordChar(s[0]) then [s[0]] + Rewrite(s[1..], table)
    else
      var j := RunEnd(s, 0);
      Lookup(table, s[..j]) + Rewrite(s[j..], table)
  }

  /** One `gsub!(/\b(...)\b/i, sub)` per row, applied one after the other in the table's order. */
  function Passes(s: string, table: Table): string
    decreases |table|
  {
    if table == [] then s else Passes(Rewrite(s, table[..1]), table[1..])
  }

  /** The word rows of `clean_combo`, in the order of its `gsub!` calls. */
  const ComboWords: Table := [
    ({"comm", "command", "cmd", "clover"}, "@"),
    ({"cont", "control", "ctl", "ctrl"}, "^"),
    ({"opt", "option", "alt"}, "~"),
    ({"shift"}, "$"),
    ({"func", "function", "fn"}, "*")
  ]

  /** `String#clean_combo`. */
  function CleanCombo(s: string): string
  {
    Passes(Dehyphen(s), ComboWords)
  }

  predicate NoWordChar(s: string)
  {
    forall i :: 0 <= i < |s| ==> !Text.IsWordChar(s[i])
  }

  predicate AllWordChars(s: string)
  {
    forall i :: 0 <= i < |s| ==> Text.IsWordChar(s[i])
  }

  lemma {:induction false} RewriteNoWord(s: string, table: Table)
    requires NoWordChar(s)
    ensures Rewrite(s, table) == s
    decreases |s|
  {
    if s != [] {
      RewriteNoWord(s[1..], table);
    }
  }

  /** A whole word is replaced as the table says. */
  lemma RewriteWord(w: string, table: Table)
    requires w != [] && AllWordChars(w)
    ensures Rewrite(w, table) == Lookup(table, w)
  {
    RunEndUnique(w, 0, |w|);
    assert w[..|w|] == w;
  }

  /** The replacement works piece by piece across a non-word character. */
  lemma {:induction false} RewriteAppend(x: string, y: string, table: Table)
    requires x == [] || y == [] || !Text.IsWordChar(x[|x| - 1]) || !Text.IsWordChar(y[0])
    ensures Rewrite(x + y, table) == Rewrite(x, table) + Rewrite(y, table)
    decreases |x|, 1
  {
    if x == [] {
      assert x + y == y;
    } else if !Text.IsWordChar(x[0]) {
      RewriteAppendAtOther(x, y, table);
    } else {
      RewriteAppendAtRun(x, y, table);
    }
  }

  lemma {:induction false} RewriteAppendAtOther(x: string, y: string, table: Table)
    requires x != [] && !Text.IsWordChar(x[0])
    requires y == [] || !Text.IsWordChar(x[|x| - 1]) || !Text.IsWordChar(y[0])
    ensures Rewrite(x + y, table) == Rewrite(x, table) + Rewrite(y, table)
    decreases |x|, 0
  {
    assert (x + y)[0] == x[0];
    assert (x + y)[1..] == x[1..] + y;
    RewriteAppend(x[1..], y, table);
    assert Rewrite(x + y, table) == [x[0]] + (Rewrite(x[1..], table) + Rewrite(y, table));
    assert Rewrite(x, table) == [x[0]] + Rewrite(x[1..], table);
  }

  lemma {:induction false} RewriteAppendAtRun(x: string, y: string, table: Table)
    requires x != [] && Text.IsWordChar(x[0])
    requires y == [] || !Text.IsWordChar(x[|x| - 1]) || !Text.IsWordChar(y[0])
    ensures Rewrite(x + y, table) == Rewrite(x, table) + Rewrite(y, table)
    decreases |x|, 0
  {
    var i := RunEnd(x, 0);
    RunEndOfAppend(x, y);
    assert (x + y)[..i] == x[..i];
    assert (x + y)[i..] == x[i..] + y;
    RewriteAppend(x[i..], y, table);
    var w := Lookup(table, x[..i]);
    Text.AppendAssociative(w, Rewrite(x[i..], table), Rewrite(y, table));
  }

  /** Appending text that starts with a non-word character leaves the first run where it was. */
  lemma RunEndOfAppend(x: string, y: string)
    requires x != [] && Text.IsWordChar(x[0])
    requires y == [] || !Text.IsWordChar(x[|x| - 1]) || !Text.IsWordChar(y[0])
    ensures RunEnd(x + y, 0) == RunEnd(x, 0)
  {
    var i := RunEnd(x, 0);
    var xy := x + y;
    assert forall k :: 0 <= k < |x| ==> xy[k] == x[k];
    if i < |x| {
      assert xy[i] == x[i];
    } else if y != [] {
      assert Text.IsWordChar(x[|x| - 1]);
      assert xy[i] == y[0];
    }
    RunEndUnique(xy, 0, i);
  }

  lemma {:induction false} RewriteEmptyTable(s: string)
    ensures Rewrite(s, []) == s
    decreases |s|
  {
    if s != [] && !Text.IsWordChar(s[0]) {
      RewriteEmptyTable(s[1..]);
    } else if s != [] {
      var j := RunEnd(s, 0);
      RewriteEmptyTable(s[j..]);
      assert s == s[..j] + s[j..];
    }
  }

  /** Rewriting with one row and then with the rest is rewriting with the whole table once. */
  lemma {:induction false} RewriteThenRewrite(s: string, e: (set<string>, string), t: Table)
    requires NoWordChar(e.1)
    ensures Rewrite(Rewrite(s, [e]), t) == Rewrite(s, [e] + t)
    decreases |s|
  {
    if s == [] {
    } else if !Text.IsWordChar(s[0]) {
      var rest := Rewrite(s[1..], [e]);
      assert Rewrite(s, [e]) == [s[0]] + rest;
      RewriteAppend([s[0]], rest, t);
      RewriteNoWord([s[0]], t);
      RewriteThenRewrite(s[1..], e, t);
      assert Rewrite(s, [e] + t) == [s[0]] + Rewrite(s[1..], [e] + t);
    } else {
      var j := RunEnd(s, 0);
      RewriteThenRewriteWord(s[..j], Rewrite(s[j..], [e]), e, t);
      RewriteThenRewrite(s[j..], e, t);
      assert Rewrite(s, [e]) == Lookup([e], s[..j]) + Rewrite(s[j..], [e]);
      assert Rewrite(s, [e] + t) == Lookup([e] + t, s[..j]) + Rewrite(s[j..], [e] + t);
    }
  }

  lemma LookupCons(e: (set<string>, string), t: Table, w: string)
    ensures Lookup([e], w) == (if Text.Downcase(w) in e.0 then e.1 else w)
    ensures Lookup([e] + t, w) == (if Text.Downcase(w) in e.0 then e.1 else Lookup(t, w))
  {
    assert ([e] + t)[0] == e && ([e] + t)[1..] == t && [e][1..] == [];
  }

  /** The step of `RewriteThenRewrite` for a leading word `w` followed by the rewritten rest. */
  lemma RewriteThenRewriteWord(w: string, rest: string, e: (set<string>, string), t: Table)
    requires NoWordChar(e.1) && w != [] && AllWordChars(w)
    requires rest == [] || !Text.IsWordChar(rest[0])
    ensures Rewrite(Lookup([e], w) + rest, t) == Lookup([e] + t, w) + Rewrite(rest, t)
  {
    LookupCons(e, t, w);
    var l := Lookup([e], w);
    RewriteAppend(l, rest, t);
    if Text.Downcase(w) in e.0 {
      RewriteNoWord(e.1, t);
    } else {
      RewriteWord(w, t);
    }
  }

  /** The table's `gsub!` calls in sequence amount to one lookup per word. */
  lemma {:induction false} PassesAreOneRewrite(s: string, table: Table)
    requires forall k :: 0 <= k < |table| ==> NoWordChar(table[k].1)
    ensures Passes(s, table) == Rewrite(s, table)
    decreases |table|
  {
    if table == [] {
      RewriteEmptyTable(s);
    } else {
      assert table[..1] == [table[0]];
      assert table == [table[0]] + table[1..];
      PassesAreOneRewrite(Rewrite(s, table[..1]), table[1..]);
      RewriteThenRewrite(s, table[0], table[1..]);
    }
  }

  /** `clean_combo` replaces each whole word of the dehyphenated text through the word table, in one pass. */
  lemma CleanComboWordByWord(s: string)
    ensures CleanCombo(s) == Rewrite(Dehyphen(s), ComboWords)
  {
    assert NoWordChar(ComboWords[0].1) && NoWordChar(ComboWords[1].1) && NoWordChar(ComboWords[2].1);
    assert NoWordChar(ComboWords[3].1) && NoWordChar(ComboWords[4].1);
    PassesAreOneRewrite(Dehyphen(s), ComboWords);
  }

  lemma DehyphenNoHyphen(s: string)
    requires '-' !in s
    ensures Dehyphen(s) == s
  {
    forall i | 0 <= i < |s|
      ensures !JoiningHyphen(s, i)
    {
      assert s[i] in s;
    }
  }

  /** A single word becomes its modifier shortcut, or stays as it is. */
  lemma CleanComboOfWord(w: string)
    requires w != [] && AllWordChars(w)
    ensures CleanCombo(w) == Lookup(ComboWords, w)
  {
    DehyphenNoHyphen(w);
    CleanComboWordByWord(w);
    RewriteWord(w, ComboWords);
  }

  /** Without hyphens, every non-word character separates the text into pieces cleaned independently. */
  lemma CleanComboSeparator(a: string, c: char, b: string)
    requires '-' !in a && '-' !in b && c != '-' && !Text.IsWordChar(c)
    ensures CleanCombo(a + [c] + b) == CleanCombo(a) + [c] + CleanCombo(b)
  {
    DehyphenNoHyphen(a + [c] + b);
    DehyphenNoHyphen(a);
    DehyphenNoHyphen(b);
    CleanComboWordByWord(a + [c] + b);
    CleanComboWordByWord(a);
    CleanComboWordByWord(b);
    RewriteAround(a, c, b, ComboWords);
  }

  lemma RewriteAround(a: string, c: char, b: string, table: Table)
    requires !Text.IsWordChar(c)
    ensures Rewrite(a + [c] + b, table) == Rewrite(a, table) + [c] + Rewrite(b, table)
  {
    RewriteAppend(a, [c] + b, table);
    RewriteAppend([c], b, table);
    RewriteNoWord([c], table);
    assert a + [c] + b == a + ([c] + b);
  }

  // ------------------------------------------------------------ modifiers and keys

  const Control: string := "\U{2303}"
  const Option: string := "\U{2325}"
  const Shift: string := "\U{21E7}"
  const Command: string := "\U{2318}"

  /** The order `sort_mods` puts modifiers in. */
  const ModOrder: seq<string> := ["Fn", Control, Option, Shift, Command]

  /** A modifier's place in `ModOrder`; 5 for anything else. */
  function Rank(m: string): nat
  {
    if m == "Fn" then 0
    else if m == Control then 1
    else if m == Option then 2
    else if m == Shift then 3
    else if m == Command then 4
    else 5
  }

  /** The characters of `/[⌃⇧⌥⌘]/`. */
  predicate IsModSymbol(c: char)
  {
    c == Control[0] || c == Shift[0] || c == Option[0] || c == Command[0]
  }

  /** The characters of `/[*\^$@~]/`. */
  predicate IsModShortcut(c: char)
  {
    c == '*' || c == '^' || c == '$' || c == '@' || c == '~'
  }

  /** `String#to_mod`: a shortcut character becomes its modifier; anything else is left alone. */
  function ToMod(s: string): (r: string)
    ensures |s| == 1 && IsModShortcut(s[0]) ==> r in ModOrder
    ensures !(|s| == 1 && IsModShortcut(s[0])) ==> r == s
  {
    if s == "^" then Control
    else if s == "~" then Option
    else if s == "$" then Shift
    else if s == "@" then Command
    else if s == "*" then "Fn"
    else s
  }

  /** The modifiers the character loop of `initialize` collects from `s`, in order. */
  function ModsOf(s: string): (r: seq<string>)
    ensures forall k :: 0 <= k < |r| ==> r[k] in ModOrder
  {
    if s == [] then []
    else
      var c := s[|s| - 1];
      var m := ModsOf(s[..|s| - 1]);
      if c == ' ' then m
      else if IsModSymbol(c) then m + [[c]]
      else if IsModShortcut(c) then m + [ToMod([c])]
      else m
  }

  /** The key the character loop of `initialize` builds from `s`. */
  function KeyOf(s: string): (r: string)
    ensures forall k :: 0 <= k < |r| ==> r[k] != ' ' && !IsModSymbol(r[k]) && !IsModShortcut(r[k])
  {
    if s == [] then []
    else
      var c := s[|s| - 1];
      var k := KeyOf(s[..|s| - 1]);
      if c == ' ' || IsModSymbol(c) || IsModShortcut(c) then k else k + [c]
  }

  /** The key keeps every other character, in order: it is built piece by piece. */
  lemma {:induction false} KeyOfAppend(a: string, b: string)
    ensures KeyOf(a + b) == KeyOf(a) + KeyOf(b)
    decreases |b|
  {
    if b == [] {
      assert a + b == a;
    } else {
      assert (a + b)[..|a + b| - 1] == a + b[..|b| - 1];
      KeyOfAppend(a, b[..|b| - 1]);
    }
  }

  /** Likewise the modifiers. */
  lemma {:induction false} ModsOfAppend(a: string, b: string)
    ensures ModsOf(a + b) == ModsOf(a) + ModsOf(b)
    decreases |b|
  {
    if b == [] {
      assert a + b == a;
    } else {
      assert (a + b)[..|a + b| - 1] == a + b[..|b| - 1];
      ModsOfAppend(a, b[..|b| - 1]);
    }
  }

  /** A text with no space and no modifier character is all key. */
  lemma {:induction false} KeyOfPlain(s: string)
    requires forall k :: 0 <= k < |s| ==> s[k] != ' ' && !IsModSymbol(s[k]) && !IsModShortcut(s[k])
    ensures KeyOf(s) == s && ModsOf(s) == []
  {
    if s != [] {
      KeyOfPlain(s[..|s| - 1]);
      assert s[..|s| - 1] + [s[|s| - 1]] == s;
    }
  }

  /** The character loop of `initialize`. */
  method SplitModifiers(s: string) returns (mods: seq<string>, key: string)
    ensures mods == ModsOf(s) && key == KeyOf(s)
  {
    mods, key := [], "";
    var i := 0;
    while i < |s|
      invariant 0 <= i <= |s|
      invariant mods == ModsOf(s[..i]) && key == KeyOf(s[..i])
    {
      var c := s[i];
      assert s[..i + 1][..i] == s[..i];
      if c == ' ' {
      } else if IsModSymbol(c) {
        mods := mods + [[c]];
      } else if IsModShortcut(c) {
        mods := mods + [ToMod([c])];
      } else {
        key := key + [c];
      }
      i := i + 1;
    }
    assert s[..|s|] == s;
  }

  /** The members of `order` that occur in `mods`, in the order of `order`. */
  function KeepMembers(order: seq<string>, mods: seq<string>): (r: seq<string>)
    requires forall i, j :: 0 <= i < j < |order| ==> Rank(order[i]) < Rank(order[j])
    ensures forall m :: m in r <==> m in order && m in mods
    ensures forall i, j :: 0 <= i < j < |r| ==> Rank(r[i]) < Rank(r[j])
  {
    if order == [] then []
    else
      var rest := KeepMembers(order[1..], mods);
      assert forall m :: m in rest ==> Rank(order[0]) < Rank(m);
      if order[0] in mods then [order[0]] + rest else rest
  }

  /**
   * `sort_mods`: `uniq!` then a sort by the position in `ModOrder`. Every
   * modifier the loop collects is in `ModOrder`, so the comparison never
   * meets a modifier outside it.
   */
  function SortMods(mods: seq<string>): (r: seq<string>)
    ensures forall m :: m in r <==> m in mods && m in ModOrder
    ensures forall i, j :: 0 <= i < j < |r| ==> Rank(r[i]) < Rank(r[j])
    ensures forall i, j :: 0 <= i < j < |r| ==> r[i] != r[j]
  {
    KeepMembers(ModOrder, mods)
  }

  /** The `doubles` table of `lower_to_upper`: each unshifted character with its shifted one. */
  const Doubles: seq<(char, char)> := [
    (',', '<'), ('.', '>'), ('/', '?'), (';', ':'), ('\'', '\"'),
    ('[', '{'), (']', '}'), ('\\', '|'), ('-', '_'), ('=', '+')
  ]

  /** The characters of `upper?`. */
  const UpperSymbols: string := "<>?:\"{}|!@#$%^&*()_+"

  /** `String#upper?`. */
  predicate IsUpper(s: string)
  {
    |s| == 1 && s[0] in UpperSymbols
  }

  function Paired<V>(pairs: seq<(char, V)>, c: char): (r: Option<V>)
    ensures r.Some? <==> exists i :: 0 <= i < |pairs| && pairs[i].0 == c
    ensures r.Some? ==> exists i :: 0 <= i < |pairs| && pairs[i] == (c, r.value)
  {
    if pairs == [] then None
    else if pairs[0].0 == c then Some(pairs[0].1)
    else
      var r := Paired(pairs[1..], c);
      assert forall i :: 0 < i < |pairs| ==> pairs[i] == pairs[1..][i - 1];
      r
  }

  predicate IsLower(s: string)
  {
    |s| == 1 && Paired(Doubles, s[0]).Some?
  }

  /**
   * `String#lower_to_upper`: a one-character string in the table becomes the
   * shifted character paired with it (the pair is unique, `DoublesKeysDistinct`).
   */
  function LowerToUpper(s: string): (r: string)
    ensures !IsLower(s) ==> r == s
    ensures IsLower(s) ==> |r| == 1 && exists i :: 0 <= i < |Doubles| && Doubles[i] == (s[0], r[0])
    ensures IsLower(s) ==> IsUpper(r) && !IsLower(r)
  {
    if IsLower(s) then
      var u := Paired(Doubles, s[0]).value;
      ShiftedAreUpper();
      UnshiftedAreNotUpper();
      [u]
    else s
  }

  /** Every shifted character of the table is one `upper?` accepts. */
  lemma ShiftedAreUpper()
    ensures forall i :: 0 <= i < |Doubles| ==> Doubles[i].1 in UpperSymbols
  {
  }

  /** No unshifted character of the table is one `upper?` accepts. */
  lemma UnshiftedAreNotUpper()
    ensures forall i :: 0 <= i < |Doubles| ==> Doubles[i].0 !in UpperSymbols
  {
  }

  /** No unshifted character appears twice in the table, so its shifted partner is determined. */
  lemma DoublesKeysDistinct()
    ensures forall i, j :: 0 <= i < j < |Doubles| ==> Doubles[i].0 != Doubles[j].0
  {
  }

  /** Shifting is done once: a shifted key stays as it is. */
  lemma LowerToUpperIdempotent(s: string)
    ensures LowerToUpper(LowerToUpper(s)) == LowerToUpper(s)
  {
  }

  /** The `unclear_characters` hash of `clarify_characters`. */
  const Unclear: map<char, string> := map[
    ',' := "Comma (,)", '.' := "Period (.)", ';' := "Semicolon (;)", ':' := "Colon (:)",
    '`' := "Backtick (`)", '-' := "Minus Sign (-)", '+' := "Plus Sign (+)",
    '=' := "Equals Sign (=)", '_' := "Underscore (_)", '~' := "Tilde (~)"
  ]

  /** `String#clarify_characters`. */
  function ClarifyCharacters(s: string): string
  {
    if |s| == 1 && s[0] in Unclear then Unclear[s[0]] else s
  }

  /** Every spelled-out name ends with its character in parentheses. */
  lemma UnclearEntry(c: char)
    requires c in Unclear
    ensures var n := Unclear[c];
            |n| > 3 && n[|n| - 3] == '(' && n[|n| - 2] == c && n[|n| - 1] == ')'
  {
    if c == ',' {} else if c == '.' {} else if c == ';' {} else if c == ':' {} else if c == '`' {}
    else if c == '-' {} else if c == '+' {} else if c == '=' {} else if c == '_' {} else {
      assert c == '~';
    }
  }

  /** An easily confused character is spelled out with itself in parentheses; anything else is left alone. */
  lemma ClarifiedNamesCharacter(s: string)
    ensures var r := ClarifyCharacters(s);
            r != s ==> |s| == 1 && |r| > 3 && r[|r| - 3..] == "(" + s + ")"
  {
    if |s| == 1 && s[0] in Unclear {
      UnclearEntry(s[0]);
      var r := Unclear[s[0]];
      var tail := r[|r| - 3..];
      assert tail[0] == '(' && tail[1] == s[0] && tail[2] == ')';
      assert tail == "(" + s + ")";
    }
  }

  /** One combination as `initialize` stores it. */
  datatype Combo = Combo(mods: seq<string>, key: string, title: string)

  /**
   * The rest of the loop body of `initialize`: modifier order, implicit Shift,
   * shifted and upper-cased key, title.  When `clarify_characters` returns
   * `self`, the title is the key's own string object, so the `gsub!` that
   * quotes the key rewrites the title as well.
   */
  function Finish(mods0: seq<string>, key0: string): Combo
  {
    var mods := SortMods(mods0);
    if |key0| == 1 then
      var mods' := if mods == [] && (Text.IsAsciiUpper(key0[0]) || IsUpper(key0)) then mods + [Shift] else mods;
      var k := Text.Upcase(ShiftedKey(mods', key0));
      Combo(mods', Quote(k), AliasedTitle(k))
    else
      Combo(mods, Quote(ShiftedKey(mods, key0)), "")
  }

  /** The title `Finish` stores for the upper-cased key `k`: the quoted key itself when `clarify_characters` returns `self`. */
  function AliasedTitle(k: string): string
  {
    if ClarifyCharacters(k) == k then Quote(k) else ClarifyCharacters(k)
  }

  /** Quoting a one-character key after clarifying it is clarifying the quoted key. */
  lemma TitleOfQuotedKey(k: string)
    requires |k| == 1
    ensures AliasedTitle(k) == ClarifyCharacters(Quote(k))
  {
    if k[0] == '\"' {
      assert k == "\"";
      assert '\"' !in Unclear;
    } else {
      if k[0] in Unclear {
        UnclearEntry(k[0]);
      }
    }
  }

  /** A `"` key is not shifted or upper-cased. */
  lemma DoubleQuoteKeyKept(mods: seq<string>)
    ensures Text.Upcase(ShiftedKey(mods, "\"")) == "\""
  {
    assert !IsLower("\"");
  }

  /**
   * The stored title of a one-character key is `clarify_characters` of the
   * stored key, so a `"` key is titled `&quot;` like the key.
   */
  lemma StoredTitle(mods0: seq<string>, key0: string)
    requires |key0| == 1
    ensures Finish(mods0, key0).title == ClarifyCharacters(Finish(mods0, key0).key)
    ensures key0 == "\"" ==> Finish(mods0, key0).title == "&quot;"
  {
    var mods := SortMods(mods0);
    var mods' := if mods == [] && (Text.IsAsciiUpper(key0[0]) || IsUpper(key0)) then mods + [Shift] else mods;
    var k := Text.Upcase(ShiftedKey(mods', key0));
    assert Finish(mods0, key0) == Combo(mods', Quote(k), AliasedTitle(k));
    TitleOfQuotedKey(k);
    if key0 == "\"" {
      DoubleQuoteKeyKept(mods');
      assert Quote(k) == "&quot;";
    }
  }

  /** `key = key.lower_to_upper if mods.include?('$'.to_mod)`. */
  function ShiftedKey(mods: seq<string>, key: string): string
  {
    if Shift in mods then LowerToUpper(key) else key
  }

  /** `key.gsub!(/"/, '&quot;')`. */
  function Quote(key: string): string
  {
    Text.ReplaceChar(key, '\"', "&quot;")
  }

  /** One `" / "`-separated segment of the markup, as `initialize` turns it into a combination. */
  function ParseCombo(segment: string): Combo
  {
    var s := Text.Strip(CleanCombo(segment));
    Finish(ModsOf(s), KeyOf(s))
  }

  /** The stored modifiers are modifiers, each once, in the fixed order. */
  lemma FinishModsOrdered(mods0: seq<string>, key0: string)
    ensures var c := Finish(mods0, key0);
            (forall m :: m in c.mods ==> m in ModOrder)
            && (forall i, j :: 0 <= i < j < |c.mods| ==> Rank(c.mods[i]) < Rank(c.mods[j]))
  {
  }

  /** Shift is on a one-character key exactly when it was typed, or when the key is an upper character with no modifier at all. */
  lemma ImplicitShift(mods0: seq<string>, key0: string)
    requires |key0| == 1
    ensures Shift in Finish(mods0, key0).mods
        <==> Shift in mods0 || (SortMods(mods0) == [] && (Text.IsAsciiUpper(key0[0]) || IsUpper(key0)))
  {
  }

  /** With Shift on, a one-character key is shown shifted: never an unshifted symbol, never a lower-case letter. */
  lemma ShiftedKeyIsUpper(mods0: seq<string>, key0: string)
    requires |key0| == 1 && Shift in Finish(mods0, key0).mods
    ensures var c := Finish(mods0, key0);
            var k := Text.Upcase(ShiftedKey(c.mods, key0));
            c.key == Quote(k) && |k| == 1 && !IsLower(k) && !Text.IsAsciiLower(k[0])
    ensures var c := Finish(mods0, key0);
            Paired(Doubles, key0[0]).Some? ==>
              exists i :: 0 <= i < |Doubles| && Doubles[i].0 == key0[0] && c.key == Quote([Doubles[i].1])
    ensures var c := Finish(mods0, key0);
            Paired(Doubles, key0[0]).None? ==> c.key == Quote(Text.Upcase(key0))
  {
    ShiftedUpcased(key0);
    if IsLower(key0) {
      var u := LowerToUpper(key0);
      UpcaseOfSymbol(u);
      var i :| 0 <= i < |Doubles| && Doubles[i] == (key0[0], u[0]);
      assert u == [Doubles[i].1];
    }
  }

  lemma ShiftedUpcased(key0: string)
    requires |key0| == 1
    ensures var k := Text.Upcase(LowerToUpper(key0));
            |k| == 1 && !IsLower(k) && !Text.IsAsciiLower(k[0])
  {
    if IsLower(key0) {
      ShiftedSymbolUpcased(key0);
    } else {
      UnshiftedUpcased(key0);
    }
  }

  lemma ShiftedSymbolUpcased(key0: string)
    requires IsLower(key0)
    ensures var k := Text.Upcase(LowerToUpper(key0));
            |k| == 1 && !IsLower(k) && !Text.IsAsciiLower(k[0])
  {
    var u := LowerToUpper(key0);
    assert IsUpper(u) && !IsLower(u);
    UpcaseOfSymbol(u);
  }

  lemma UpcaseOfSymbol(u: string)
    requires IsUpper(u)
    ensures Text.Upcase(u) == u
  {
    assert u[0] < 'a' || u[0] > 'z';
  }

  lemma UnshiftedUpcased(key0: string)
    requires |key0| == 1 && !IsLower(key0)
    ensures var k := Text.Upcase(LowerToUpper(key0));
            |k| == 1 && !IsLower(k) && !Text.IsAsciiLower(k[0])
  {
    var k := Text.Upcase(key0);
    if Paired(Doubles, k[0]).Some? {
      DoubledIsSymbol(k[0]);
    }
  }

  lemma DoubledIsSymbol(c: char)
    requires Paired(Doubles, c).Some?
    ensures !Text.IsAsciiUpper(c) && !Text.IsAsciiLower(c)
  {
    var i :| 0 <= i < |Doubles| && Doubles[i].0 == c;
    assert c in ",./;'[]\\-=";
  }

  // ------------------------------------------------------------ name_to_ent

  /** A key's spelled-out name, its symbol and its title. */
  datatype KeyName = KeyName(name: string, symbol: string, title: string)

  /** The named cases of `name_to_ent`, in their order; each row lists the lines its pattern matches. */
  const NamedKeys: seq<(set<string>, KeyName)> := [
    ({"apple"}, KeyName("Apple", "&#63743;", "Apple menu")),
    ({"tab"}, KeyName("", "&#8677;", "Tab Key")),
    ({"caps", "capslock"}, KeyName("Caps Lock", "&#8682;", "Caps Lock Key")),
    ({"eject"}, KeyName("Eject", "&#9167;", "Eject Key")),
    ({"return"}, KeyName("Return", "&#9166;", "Return Key")),
    ({"enter"}, KeyName("Enter", "&#8996;", "Enter (Fn Return) Key")),
    ({"del", "delete", "back", "backspace"}, KeyName("Del", "&#9003;", "Delete")),
    ({"fwddel", "fwddelete"}, KeyName("Fwd Del", "&#8998;", "Forward Delete (Fn Delete)")),
    ({"esc", "escape"}, KeyName("Esc", "&#9099;", "Escape Key")),
    ({"righ", "right"}, KeyName("Right Arrow", "&#8594;", "Right Arrow Key")),
    ({"left"}, KeyName("Left Arrow", "&#8592;", "Left Arrow Key")),
    ({"u", "up"}, KeyName("Up Arrow", "&#8593;", "Up Arrow Key")),
    ({"down"}, KeyName("Down Arrow", "&#8595;", "Down Arrow Key")),
    ({"pgup"}, KeyName("PgUp", "&#8670;", "Page Up Key")),
    ({"pgdn"}, KeyName("PgDn", "&#8671;", "Page Down Key")),
    ({"home"}, KeyName("Home", "&#8598;", "Home Key")),
    ({"end"}, KeyName("End", "&#8600;", "End Key")),
    ({"click"}, KeyName("click", "<i class=\"fas fa-mouse-pointer\"></i>", "left click"))
  ]

  /** A line that `^f(\d{1,2})$` matches. */
  predicate IsFKey(l: string)
  {
    2 <= |l| <= 3 && l[0] == 'f' && forall i :: 1 <= i < |l| ==> Text.IsAsciiDigit(l[i])
  }

  /** The first line that is a function key: where the leftmost match of the pattern lies. */
  function FirstFKey(ls: seq<string>): (r: Option<string>)
    ensures r.Some? ==> IsFKey(r.value) && r.value in ls
    ensures r.None? ==> forall i :: 0 <= i < |ls| ==> !IsFKey(ls[i])
  {
    if ls == [] then None
    else if IsFKey(ls[0]) then Some(ls[0])
    else
      var r := FirstFKey(ls[1..]);
      assert forall i :: 0 < i < |ls| ==> ls[i] == ls[1..][i - 1];
      r
  }

  /** The first row of the table with a pattern that matches one of the lines. */
  function FindNamed(ls: seq<string>, table: seq<(set<string>, KeyName)>): (r: Option<KeyName>)
    ensures r.None? ==> forall j, i :: 0 <= j < |table| && 0 <= i < |ls| ==> ls[i] !in table[j].0
  {
    if table == [] then None
    else if exists i :: 0 <= i < |ls| && ls[i] in table[0].0 then Some(table[0].1)
    else
      var r := FindNamed(ls, table[1..]);
      assert forall j :: 0 < j < |table| ==> table[j] == table[1..][j - 1];
      r
  }

  /** The `case` of `name_to_ent` on the stripped, downcased key; its anchors match at every line. */
  function KeyNameOf(key: string): KeyName
  {
    var ls := Text.Lines(Text.Downcase(Text.Strip(key)));
    match FirstFKey(ls)
    case Some(l) =>
      var n := "F" + l[1..];
      KeyName(n, n, n + " Key")
    case None =>
      match FindNamed(ls, NamedKeys)
      case Some(k) => k
      case None => KeyName(key, key, Text.Capitalize(key))
  }

  /** `String#name_to_ent`: the symbol or the name, then the title. */
  function NameToEnt(key: string, useSymbol: bool): (string, string)
  {
    var k := KeyNameOf(key);
    (if useSymbol then k.symbol else k.name, k.title)
  }

  /** `f` and one or two digits name the function key with that number. */
  lemma NameToEntFunctionKey(key: string, useSymbol: bool)
    requires var t := Text.Downcase(Text.Strip(key)); '\n' !in t && IsFKey(t)
    ensures var n := "F" + Text.Downcase(Text.Strip(key))[1..];
            NameToEnt(key, useSymbol) == (n, n + " Key")
  {
    Text.SplitAllNoNewline(Text.Downcase(Text.Strip(key)));
  }

  /** A known name gives the row's symbol or name, and its title. */
  lemma NameToEntKnown(key: string, useSymbol: bool, j: nat)
    requires var t := Text.Downcase(Text.Strip(key)); '\n' !in t && !IsFKey(t)
    requires j < |NamedKeys| && Text.Downcase(Text.Strip(key)) in NamedKeys[j].0
    requires forall a :: 0 <= a < j ==> Text.Downcase(Text.Strip(key)) !in NamedKeys[a].0
    ensures var k := NamedKeys[j].1;
            NameToEnt(key, useSymbol) == (if useSymbol then k.symbol else k.name, k.title)
  {
    var t := Text.Downcase(Text.Strip(key));
    Text.SplitAllNoNewline(t);
    KnownRowFound([t], NamedKeys, j);
  }

  lemma {:induction false} KnownRowFound(ls: seq<string>, table: seq<(set<string>, KeyName)>, j: nat)
    requires j < |table| && |ls| == 1 && ls[0] in table[j].0
    requires forall a :: 0 <= a < j ==> ls[0] !in table[a].0
    ensures FindNamed(ls, table) == Some(table[j].1)
  {
    if j > 0 {
      assert ls[0] !in table[0].0;
      KnownRowFound(ls, table[1..], j - 1);
    }
  }

  /** Any other key is its own name and symbol, with its capitalized form as the title. */
  lemma NameToEntUnknown(key: string, useSymbol: bool)
    requires var t := Text.Downcase(Text.Strip(key)); '\n' !in t && !IsFKey(t)
    requires forall j :: 0 <= j < |NamedKeys| ==> Text.Downcase(Text.Strip(key)) !in NamedKeys[j].0
    ensures NameToEnt(key, useSymbol) == (key, Text.Capitalize(key))
  {
    var t := Text.Downcase(Text.Strip(key));
    Text.SplitAllNoNewline(t);
    UnknownRowsMissed([t], NamedKeys);
  }

  lemma {:induction false} UnknownRowsMissed(ls: seq<string>, table: seq<(set<string>, KeyName)>)
    requires forall j, i :: 0 <= j < |table| && 0 <= i < |ls| ==> ls[i] !in table[j].0
    ensures FindNamed(ls, table) == None
  {
    if table != [] {
      UnknownRowsMissed(ls, table[1..]);
    }
  }

  // ------------------------------------------------------------ render

  /** The three settings of the `kbd` section of the site configuration. */
  datatype Flags = Flags(keySymbols: bool, modSymbols: bool, plusSign: bool)

  /**
   * `config['kbd'][name] rescue true`: without a `kbd` section the lookup
   * raises and the rescue gives true; a missing setting is nil, which is false.
   */
  function Setting(kbd: Option<map<string, bool>>, name: string): (r: bool)
    ensures kbd.None? ==> r
    ensures kbd.Some? ==> (r <==> name in kbd.value && kbd.value[name])
  {
    match kbd
    case None => true
    case Some(m) => name in m && m[name]
  }

  function FlagsOf(kbd: Option<map<string, bool>>): Flags
  {
    Flags(Setting(kbd, "use_key_symbols"), Setting(kbd, "use_modifier_symbols"), Setting(kbd, "use_plus_sign"))
  }

  /** `String#mod_to_ent`: a modifier's HTML entity or its name. */
  function ModToEnt(m: string, useSymbol: bool): string
  {
    if m == Control then (if useSymbol then "&#8963;" else "Control")
    else if m == Option then (if useSymbol then "&#8997;" else "Option")
    else if m == Shift then (if useSymbol then "&#8679;" else "Shift")
    else if m == Command then (if useSymbol then "&#8984;" else "Command")
    else if m == "Fn" then (if useSymbol then "Fn" else "Function")
    else m
  }

  /** `String#mod_to_title`. */
  function ModToTitle(m: string): string
  {
    if m == Control then "Control"
    else if m == Option then "Option"
    else if m == Shift then "Shift"
    else if m == Command then "Command"
    else if m == "Fn" then "Function"
    else m
  }

  /** A spelled-out modifier names the same modifier in the element and in the title. */
  lemma ModNamesAgree(m: string)
    requires m in ModOrder
    ensures ModToEnt(m, false) == ModToTitle(m)
    ensures ModToEnt(m, true) != ModToTitle(m)
  {
  }

  /** A string outside the modifier tables passes through `mod_to_ent` and `mod_to_title` unchanged. */
  lemma OtherNamesPassThrough(m: string, useSymbol: bool)
    requires m !in ModOrder
    ensures ModToEnt(m, useSymbol) == m && ModToTitle(m) == m
  {
  }

  /** Each of the five modifiers gets its own title and, in either setting, its own element text. */
  lemma ModNamesDistinct(useSymbol: bool)
    ensures forall i, j :: 0 <= i < j < |ModOrder| ==> ModToTitle(ModOrder[i]) != ModToTitle(ModOrder[j])
    ensures forall i, j :: 0 <= i < j < |ModOrder| ==> ModToEnt(ModOrder[i], useSymbol) != ModToEnt(ModOrder[j], useSymbol)
  {
  }

  function ModKbd(m: string, f: Flags): string
  {
    "<kbd class=\"" + (if f.modSymbols then "mod symbol" else "mod") + "\">" + ModToEnt(m, f.modSymbols) + "</kbd>"
  }

  function KeyKbd(key: string, f: Flags): string
  {
    "<kbd class=\"" + (if f.keySymbols then "key symbol" else "key") + "\">" + NameToEnt(key, f.keySymbols).0 + "</kbd>"
  }

  function KeyTitle(key: string, f: Flags): string
  {
    var t := NameToEnt(key, f.keySymbols).1;
    if |t| == 1 then ClarifyCharacters(t) else t
  }

  /** The elements of the modifiers, in order. */
  function ModKbds(mods: seq<string>, f: Flags): (r: seq<string>)
    ensures |r| == |mods|
  {
    if mods == [] then [] else ModKbds(mods[..|mods| - 1], f) + [ModKbd(mods[|mods| - 1], f)]
  }

  function ModTitles(mods: seq<string>): (r: seq<string>)
    ensures |r| == |mods|
  {
    if mods == [] then [] else ModTitles(mods[..|mods| - 1]) + [ModToTitle(mods[|mods| - 1])]
  }

  /** The separator between elements: `+`, nothing, or `-` when modifiers are spelled out. */
  function Separator(f: Flags): string
  {
    if f.modSymbols then (if f.plusSign then "+" else "") else "-"
  }

  function SpanClass(f: Flags): string
  {
    if f.modSymbols && !f.plusSign then "combined" else "separated"
  }

  /**
   * A span is `combined` exactly when its elements are joined with nothing
   * between them, and `-` joins them exactly when modifiers are spelled out.
   */
  lemma CombinedIffTight(f: Flags)
    ensures SpanClass(f) == "combined" <==> Separator(f) == ""
    ensures Separator(f) == "-" <==> !f.modSymbols
    ensures Separator(f) == "+" <==> f.modSymbols && f.plusSign
  {
  }

  function Kbds(c: Combo, f: Flags): seq<string>
  {
    ModKbds(c.mods, f) + (if c.key == [] then [] else [KeyKbd(c.key, f)])
  }

  function Titles(c: Combo, f: Flags): seq<string>
  {
    ModTitles(c.mods) + (if c.key == [] then [] else [KeyTitle(c.key, f)])
  }

  /** The span of one combination. */
  function Span(c: Combo, f: Flags): string
  {
    "<span class=\"keycombo " + SpanClass(f) + "\" title=\"" + Text.Join(Titles(c, f), "-") + "\">"
      + Text.Join(Kbds(c, f), Separator(f)) + "</span>"
  }

  /** The spans of the combinations, one each, in order. */
  function Spans(combos: seq<Combo>, f: Flags): seq<string>
  {
    MapSeq(combos, c => Span(c, f))
  }

  /** The combinations of the segments, one each, in order. */
  function ParseAll(segments: seq<string>): seq<Combo>
  {
    MapSeq(segments, ParseCombo)
  }

  /** Each modifier gets its own element and its own title word, in the stored order. */
  lemma {:induction false} ModElementsInOrder(mods: seq<string>, f: Flags)
    ensures forall i :: 0 <= i < |mods| ==> ModKbds(mods, f)[i] == ModKbd(mods[i], f)
    ensures forall i :: 0 <= i < |mods| ==> ModTitles(mods)[i] == ModToTitle(mods[i])
    decreases |mods|
  {
    if mods != [] {
      ModElementsInOrder(mods[..|mods| - 1], f);
    }
  }

  /**
   * A combination shows one element per modifier, then one for the key when
   * there is a key, and the title has one word for each element. Every
   * combination is rendered: `length` is never false in Ruby, so the `next`
   * of `render` never skips one.
   */
  lemma SpanElements(c: Combo, f: Flags)
    ensures |Kbds(c, f)| == |Titles(c, f)| == |c.mods| + (if c.key == [] then 0 else 1)
    ensures forall i :: 0 <= i < |c.mods| ==> Kbds(c, f)[i] == ModKbd(c.mods[i], f) && Titles(c, f)[i] == ModToTitle(c.mods[i])
    ensures c.key != [] ==> Kbds(c, f)[|c.mods|] == KeyKbd(c.key, f) && Titles(c, f)[|c.mods|] == KeyTitle(c.key, f)
  {
    ModElementsInOrder(c.mods, f);
  }

  /** `render` gives one span per stored combination, in order. */
  lemma SpansOnePerCombo(combos: seq<Combo>, f: Flags)
    ensures |Spans(combos, f)| == |combos|
    ensures forall i :: 0 <= i < |combos| ==> Spans(combos, f)[i] == Span(combos[i], f)
  {
    MapSeqElementwise(combos, c => Span(c, f));
  }

  /** `initialize` stores one combination per segment, in order. */
  lemma ParseAllOnePerSegment(segments: seq<string>)
    ensures |ParseAll(segments)| == |segments|
    ensures forall i :: 0 <= i < |segments| ==> ParseAll(segments)[i] == ParseCombo(segments[i])
  {
    MapSeqElementwise(segments, ParseCombo);
  }

  /** The `kbd` tag. */
  class KbdTag {
    var combos: seq<Combo>

    /** `initialize`: one combination per `" / "`-separated segment of the markup. */
    constructor (markup: string)
      ensures combos == ParseAll(Text.Split(markup, " / "))
    {
      var cs := ParseSegments(Text.Split(markup, " / "));
      combos := cs;
    }

    /** The segment loop of `initialize`. */
    static method ParseSegments(segments: seq<string>) returns (cs: seq<Combo>)
      ensures cs == ParseAll(segments)
    {
      cs := [];
      var i := 0;
      while i < |segments|
        invariant 0 <= i <= |segments|
        invariant cs == ParseAll(segments[..i])
      {
        var c := ParseSegment(segments[i]);
        ghost var next := segments[..i + 1];
        assert next[..i] == segments[..i] && next[i] == segments[i];
        assert ParseAll(next) == ParseAll(segments[..i]) + [ParseCombo(segments[i])];
        cs := cs + [c];
        i := i + 1;
      }
      assert segments[..i] == segments;
    }

    /** The body of the segment loop of `initialize`. */
    static method ParseSegment(segment: string) returns (c: Combo)
      ensures c == ParseCombo(segment)
    {
      var s := Text.Strip(CleanCombo(segment));
      var mods, key := SplitModifiers(s);
      c := Finish(mods, key);
    }

    /** The span of one combination, built element by element. */
    static method ComboSpan(c: Combo, f: Flags) returns (span: string)
      ensures span == Span(c, f)
    {
      var kbds: seq<string> := [];
      var titles: seq<string> := [];
      var i := 0;
      while i < |c.mods|
        invariant 0 <= i <= |c.mods|
        invariant kbds == ModKbds(c.mods[..i], f) && titles == ModTitles(c.mods[..i])
      {
        assert c.mods[..i + 1][..i] == c.mods[..i];
        kbds := kbds + [ModKbd(c.mods[i], f)];
        titles := titles + [ModToTitle(c.mods[i])];
        i := i + 1;
      }
      assert c.mods[..|c.mods|] == c.mods;
      if c.key != [] {
        kbds := kbds + [KeyKbd(c.key, f)];
        titles := titles + [KeyTitle(c.key, f)];
      }
      assert kbds == Kbds(c, f) && titles == Titles(c, f);
      span := "<span class=\"keycombo " + SpanClass(f) + "\" title=\"" + Text.Join(titles, "-") + "\">"
        + Text.Join(kbds, Separator(f)) + "</span>";
    }

    /** `render`, given the `kbd` section of the site configuration: the spans joined by `/`. */
    method Render(kbd: Option<map<string, bool>>) returns (out: string)
      ensures out == Text.Join(Spans(combos, FlagsOf(kbd)), "/")
    {
      var output := ComboSpans(combos, FlagsOf(kbd));
      out := Text.Join(output, "/");
    }

    /** The combination loop of `render`. */
    static method ComboSpans(cs: seq<Combo>, f: Flags) returns (output: seq<string>)
      ensures output == Spans(cs, f)
    {
      output := [];
      var i := 0;
      while i < |cs|
        invariant 0 <= i <= |cs|
        invariant output == Spans(cs[..i], f)
      {
        var span := ComboSpan(cs[i], f);
        assert cs[..i + 1][..i] == cs[..i];
        output := output + [span];
        i := i + 1;
      }
      assert cs[..i] == cs;
    }
  }
}
