/**
 * Text cleanup before speech synthesis: the symbols of the symbol table
 * are replaced by spoken words, one table entry after the other, then
 * every whitespace run becomes one space and the ends are stripped.
 */
module TextProcessor {
  import opened Strings

  /** The symbol table in its insertion order; every key is one code point. */
  const SymbolMap: seq<(char, string)> := [
    ('\U{BB}', ""), ('\U{AB}', ""),
    ('\U{2192}', " sa\U{11F} ok "), ('\U{2190}', " sol ok "),
    ('\U{2191}', " yukar\U{131} ok "), ('\U{2193}', " a\U{15F}a\U{11F}\U{131} ok "),
    ('\U{25B2}', " yukar\U{131} ok "), ('\U{25BC}', " a\U{15F}a\U{11F}\U{131} ok "),
    ('\U{2022}', ", "), ('\U{25CF}', ", "), ('\U{25CB}', ", "),
    ('\U{2605}', " y\U{131}ld\U{131}z "), ('\U{2606}', " y\U{131}ld\U{131}z "),
    ('\U{2713}', " onay "), ('\U{2717}', " iptal "),
    ('\U{D7}', " \U{E7}arp\U{131} "), ('\U{F7}', " b\U{F6}l\U{FC} "),
    ('\U{B1}', " art\U{131} eksi "), ('\U{B0}', " derece "), ('\U{20AC}', " euro "),
    ('$', " dolar "), ('&', " ve "), ('%', " y\U{FC}zde "), ('@', " et ")
  ]

  /** The characters the spoken replacements are written with. */
  predicate IsPlainChar(c: char) {
    ('a' <= c <= 'z') || c == ' ' || c == ',' ||
    c == '\U{11F}' || c == '\U{131}' || c == '\U{15F}' || c == '\U{E7}' || c == '\U{F6}' || c == '\U{FC}'
  }

  predicate IsKey(m: seq<(char, string)>, c: char) {
    exists i :: 0 <= i < |m| && m[i].0 == c
  }

  predicate IsSymbol(c: char) {
    IsKey(SymbolMap, c)
  }

  /** No replacement text contains a key, and no key is whitespace. */
  predicate WellFormedMap(m: seq<(char, string)>) {
    && (forall i, j :: 0 <= i < |m| && 0 <= j < |m| ==> m[i].0 !in m[j].1)
    && (forall i :: 0 <= i < |m| ==> !IsSpace(m[i].0))
  }

  predicate AllPlain(s: string) {
    forall i :: 0 <= i < |s| ==> IsPlainChar(s[i])
  }

  lemma SymbolMapWellFormed()
    ensures WellFormedMap(SymbolMap)
  {
    SymbolKeysNotPlain();
    SymbolValuesPlain();
    PlainSeparated(SymbolMap);
  }

  lemma SymbolKeysNotPlain()
    ensures forall i :: 0 <= i < |SymbolMap| ==> !IsPlainChar(SymbolMap[i].0) && !IsSpace(SymbolMap[i].0)
  {
  }

  lemma SymbolValuesPlain()
    ensures forall j :: 0 <= j < |SymbolMap| ==> AllPlain(SymbolMap[j].1)
  {
    forall j | 0 <= j < |SymbolMap| ensures AllPlain(SymbolMap[j].1) {
    }
  }

  /** Keys outside the plain alphabet never occur in values written in it. */
  lemma PlainSeparated(m: seq<(char, string)>)
    requires forall i :: 0 <= i < |m| ==> !IsPlainChar(m[i].0) && !IsSpace(m[i].0)
    requires forall j :: 0 <= j < |m| ==> AllPlain(m[j].1)
    ensures WellFormedMap(m)
  {
    forall i, j | 0 <= i < |m| && 0 <= j < |m| ensures m[i].0 !in m[j].1 {
      forall k | 0 <= k < |m[j].1| ensures m[j].1[k] != m[i].0 {
        assert IsPlainChar(m[j].1[k]);
      }
    }
  }


  /** `s.replace(k, v)` for a one-character `k`: every occurrence of `k` becomes `v`. */
  function ReplaceChar(s: string, k: char, v: string): string {
    if s == [] then [] else (if s[0] == k then v else [s[0]]) + ReplaceChar(s[1..], k, v)
  }

  /**
   * The loop over the table from entry `i` on: each entry's replacement
   * is applied to the result of the previous ones.
   */
  function ApplySymbols(s: string, m: seq<(char, string)>, i: nat): string
    decreases |m| - i
  {
    if i >= |m| then s else ApplySymbols(ReplaceChar(s, m[i].0, m[i].1), m, i + 1)
  }

  /** The replacement of one character under the table: the first matching entry's text, else itself. */
  function Lookup(m: seq<(char, string)>, c: char): string {
    if m == [] then [c] else if m[0].0 == c then m[0].1 else Lookup(m[1..], c)
  }

  /** A one-pass translation of every character: the reference for the sequential loop. */
  function Translate(s: string, m: seq<(char, string)>): string {
    if s == [] then [] else Lookup(m, s[0]) + Translate(s[1..], m)
  }

  lemma {:induction false} TranslateConcat(a: string, b: string, m: seq<(char, string)>)
    ensures Translate(a + b, m) == Translate(a, m) + Translate(b, m)
  {
    if a != [] {
      assert (a + b)[0] == a[0];
      assert (a + b)[1..] == a[1..] + b;
      TranslateConcat(a[1..], b, m);
      calc {
        Translate(a + b, m);
        Lookup(m, a[0]) + Translate(a[1..] + b, m);
        Lookup(m, a[0]) + (Translate(a[1..], m) + Translate(b, m));
        (Lookup(m, a[0]) + Translate(a[1..], m)) + Translate(b, m);
        { assert Translate(a, m) == Lookup(m, a[0]) + Translate(a[1..], m); }
        Translate(a, m) + Translate(b, m);
      }
    } else {
      assert a + b == b;
    }
  }

  lemma {:induction false} LookupNonKey(m: seq<(char, string)>, c: char)
    requires !IsKey(m, c)
    ensures Lookup(m, c) == [c]
  {
    if m != [] {
      assert !IsKey(m[1..], c);
      LookupNonKey(m[1..], c);
    }
  }

  lemma {:induction false} TranslateKeyFree(s: string, m: seq<(char, string)>)
    requires forall c :: c in s ==> !IsKey(m, c)
    ensures Translate(s, m) == s
  {
    if s != [] {
      LookupNonKey(m, s[0]);
      TranslateKeyFree(s[1..], m);
    }
  }

  /** Replacing the head entry's key, then translating by the rest, is translating by the whole table. */
  lemma {:induction false} ReplaceThenTranslate(s: string, m: seq<(char, string)>)
    requires m != [] && WellFormedMap(m)
    ensures Translate(ReplaceChar(s, m[0].0, m[0].1), m[1..]) == Translate(s, m)
  {
    if s != [] {
      var k, v := m[0].0, m[0].1;
      var head := if s[0] == k then v else [s[0]];
      TranslateConcat(head, ReplaceChar(s[1..], k, v), m[1..]);
      ReplaceThenTranslate(s[1..], m);
      if s[0] == k {
        assert forall c :: c in v ==> !IsKey(m[1..], c);
        TranslateKeyFree(v, m[1..]);
      } else {
        assert Translate([s[0]], m[1..]) == Lookup(m[1..], s[0]);
      }
    }
  }

  /**
   * With a well-formed table the sequential replacements equal one
   * simultaneous translation, so the table's order does not matter.
   */
  lemma {:induction false} ApplySymbolsIsTranslate(s: string, m: seq<(char, string)>, i: nat)
    requires i <= |m| && WellFormedMap(m)
    ensures ApplySymbols(s, m, i) == Translate(s, m[i..])
    decreases |m| - i
  {
    if i == |m| {
      TranslateKeyFree(s, m[i..]);
    } else {
      WellFormedSuffix(m, i);
      ApplySymbolsIsTranslate(ReplaceChar(s, m[i].0, m[i].1), m, i + 1);
      ReplaceThenTranslate(s, m[i..]);
      assert m[i..][1..] == m[i + 1..];
    }
  }

  lemma WellFormedSuffix(m: seq<(char, string)>, i: nat)
    requires i <= |m| && WellFormedMap(m)
    ensures WellFormedMap(m[i..])
  {
    assert forall a :: 0 <= a < |m| - i ==> m[i..][a] == m[i + a];
  }

  predicate NoKey(s: string, m: seq<(char, string)>) {
    forall i :: 0 <= i < |s| ==> !IsKey(m, s[i])
  }

  predicate NoSymbol(s: string) {
    NoKey(s, SymbolMap)
  }

  /** The replacement text of a key is one of the table's values. */
  lemma {:induction false} LookupInText(m: seq<(char, string)>, c: char)
    requires IsKey(m, c)
    ensures exists j :: 0 <= j < |m| && Lookup(m, c) == m[j].1
  {
    if m[0].0 == c {
      assert Lookup(m, c) == m[0].1;
    } else {
      assert IsKey(m[1..], c) by {
        var i :| 0 <= i < |m| && m[i].0 == c;
        assert m[1..][i - 1].0 == c;
      }
      LookupInText(m[1..], c);
      var j :| 0 <= j < |m[1..]| && Lookup(m[1..], c) == m[1..][j].1;
      assert Lookup(m, c) == m[j + 1].1;
    }
  }

  /** No key survives the translation by a well-formed table. */
  lemma {:induction false} TranslateNoKey(s: string, m: seq<(char, string)>)
    requires WellFormedMap(m)
    ensures NoKey(Translate(s, m), m)
  {
    if s != [] {
      var l := Lookup(m, s[0]);
      if IsKey(m, s[0]) {
        LookupInText(m, s[0]);
        var j :| 0 <= j < |m| && l == m[j].1;
        assert forall i :: 0 <= i < |l| ==> l[i] in m[j].1;
      } else {
        LookupNonKey(m, s[0]);
      }
      TranslateNoKey(s[1..], m);
      var t := Translate(s[1..], m);
      assert Translate(s, m) == l + t;
      forall i | 0 <= i < |l + t| ensures !IsKey(m, (l + t)[i]) {
        if i >= |l| { assert (l + t)[i] == t[i - |l|]; }
      }
    }
  }

  /** `re.sub(r'\s+', ' ', s)`: every maximal whitespace run becomes one space. */
  function Collapse(s: string): (r: string)
    ensures r == [] <==> s == []
    ensures r != [] ==> (IsSpace(r[0]) <==> IsSpace(s[0]))
    decreases |s|
  {
    if s == [] then []
    else if IsSpace(s[0]) then [' '] + Collapse(StripLeft(s))
    else [s[0]] + Collapse(s[1..])
  }

  /** The collapsed text keeps only characters of the input, and its whitespace runs are single spaces. */
  lemma {:induction false} CollapseShape(s: string)
    ensures CharsFrom(Collapse(s), s) && SpacesCollapsed(Collapse(s))
    decreases |s|
  {
    if s != [] {
      if IsSpace(s[0]) {
        var t := StripLeft(s);
        CollapseShape(t);
        ConsCollapsed(' ', Collapse(t), t, s);
      } else {
        CollapseShape(s[1..]);
        ConsCollapsed(s[0], Collapse(s[1..]), s[1..], s);
      }
    }
  }

  /** Every non-whitespace character of `r` occurs in `s`. */
  ghost predicate CharsFrom(r: string, s: string) {
    forall i :: 0 <= i < |r| && !IsSpace(r[i]) ==> r[i] in s
  }

  /** A character may go in front of collapsed text unless it is a second whitespace. */
  lemma ConsCollapsed(c: char, rest: string, t: string, s: string)
    requires SpacesCollapsed(rest) && CharsFrom(rest, t)
    requires |t| < |s| && t == s[|s| - |t|..] && (c in s || IsSpace(c))
    requires IsSpace(c) ==> c == ' ' && (rest == [] || !IsSpace(rest[0]))
    ensures SpacesCollapsed([c] + rest) && CharsFrom([c] + rest, s)
  {
    var r := [c] + rest;
    forall i | 0 <= i < |r| && IsSpace(r[i]) ensures r[i] == ' ' {
      if i > 0 { assert r[i] == rest[i - 1]; }
    }
    forall i, j | 0 <= i < j < |r| && j == i + 1 ensures !(IsSpace(r[i]) && IsSpace(r[j])) {
      if i > 0 { assert r[i] == rest[i - 1] && r[j] == rest[j - 1]; }
    }
    forall i | 0 <= i < |r| && !IsSpace(r[i]) ensures r[i] in s {
      if i > 0 {
        assert r[i] == rest[i - 1];
        var k :| 0 <= k < |t| && t[k] == rest[i - 1];
        assert s[|s| - |t| + k] == t[k];
      }
    }
  }

  /** A single space where `b` holds, nothing otherwise. */
  function Edge(b: bool): string {
    if b then " " else ""
  }

  /**
   * What collapsing leaves: the words of `s` in their order, exactly one
   * space between two neighbours, and one space in front or at the end
   * exactly where `s` begins or ends with whitespace. A blank `s` leaves
   * a single space.
   */
  ghost predicate CollapsesToWords(s: string) {
    && (Words(s) == [] ==> Collapse(s) == (if s == [] then [] else " "))
    && (Words(s) != [] ==>
          s != [] && Collapse(s) == Edge(IsSpace(s[0])) + Join(Words(s), ' ') + Edge(IsSpace(s[|s| - 1])))
  }

  lemma {:induction false} CollapseWords(s: string)
    ensures CollapsesToWords(s)
    decreases |s|
  {
    if s == [] {
      WordsEmptyIffBlank(s);
    } else if IsSpace(s[0]) {
      var t := StripLeft(s);
      if t == [] {
        assert IsBlank(s);
        WordsEmptyIffBlank(s);
        assert Collapse(s) == [' '] + Collapse(t);
      } else {
        CollapseWords(t);
        CollapseWordsSpace(s, t);
      }
    } else {
      var w := TakeWord(s);
      var rest := s[|w|..];
      if rest != [] {
        CollapseWords(rest);
      }
      CollapseWordsWord(s, w, rest);
    }
  }

  /** The whitespace case: the run becomes one space in front of the collapsed rest. */
  lemma CollapseWordsSpace(s: string, t: string)
    requires s != [] && IsSpace(s[0]) && t == StripLeft(s) && t != [] && CollapsesToWords(t)
    ensures CollapsesToWords(s)
  {
    StripLeftLast(s);
    WordsEmptyIffBlank(t);
    assert !IsBlank(t) by { NotBlank(t, 0); }
    WordsStripLeft(s);
    EdgeValues();
    var j, e := Join(Words(t), ' '), Edge(IsSpace(t[|t| - 1]));
    assert Collapse(t) == Edge(false) + j + e;
    assert Collapse(s) == [' '] + Collapse(t);
    SpaceInFront(Collapse(s), Collapse(t), j, e);
  }

  lemma EdgeValues()
    ensures Edge(true) == [' '] && Edge(false) == []
  {
  }

  lemma SpaceInFront(cs: string, ct: string, j: string, e: string)
    requires ct == [] + j + e && cs == [' '] + ct
    ensures cs == [' '] + j + e
  {
  }

  /** One word joins to itself. */
  lemma JoinOne(w: string)
    ensures Join([w], ' ') == w
  {
  }

  /** A word in front of at least one more is followed by a space. */
  lemma JoinCons(w: string, wr: seq<string>)
    requires |wr| >= 1
    ensures Join([w] + wr, ' ') == w + [' '] + Join(wr, ' ')
  {
    assert ([w] + wr)[1..] == wr;
  }

  /** The word case: the first word is copied, then comes the collapsed rest. */
  lemma CollapseWordsWord(s: string, w: string, rest: string)
    requires s != [] && !IsSpace(s[0]) && w == TakeWord(s) && rest == s[|w|..]
    requires rest != [] ==> CollapsesToWords(rest)
    ensures CollapsesToWords(s)
  {
    WordsEmptyIffBlank(rest);
    if rest == [] {
      WordAlone(s, w, rest);
    } else if Words(rest) == [] {
      WordThenBlank(s, w, rest);
    } else {
      WordThenMore(s, w, rest);
    }
  }

  /** A string that is one word collapses to that word. */
  lemma WordAlone(s: string, w: string, rest: string)
    requires s != [] && !IsSpace(s[0]) && w == TakeWord(s) && rest == s[|w|..] && rest == []
    ensures CollapsesToWords(s)
  {
    WordSplitsOff(s, w, rest);
    WordsStepAt(s, s, w, rest);
    CollapseWord(w, rest);
    assert Words(s) == [w];
    assert Collapse(s) == w + [];
    OneWord(s, w, []);
  }

  /** One word followed by blank text collapses to the word and one space. */
  lemma WordThenBlank(s: string, w: string, rest: string)
    requires s != [] && !IsSpace(s[0]) && w == TakeWord(s) && rest == s[|w|..] && rest != []
    requires Words(rest) == [] && CollapsesToWords(rest)
    ensures CollapsesToWords(s)
  {
    WordSplitsOff(s, w, rest);
    WordsStepAt(s, s, w, rest);
    CollapseWord(w, rest);
    WordsEmptyLastSpace(rest);
    assert Words(s) == [w];
    assert Collapse(s) == w + " ";
    OneWord(s, w, " ");
  }

  /** The conclusion for a string holding a single word. */
  lemma OneWord(s: string, w: string, trail: string)
    requires s != [] && !IsSpace(s[0]) && Words(s) == [w]
    requires Collapse(s) == w + trail && trail == (if IsSpace(s[|s| - 1]) then " " else "")
    ensures CollapsesToWords(s)
  {
    JoinOne(w);
    EdgeValues();
    Glue(Collapse(s), Edge(IsSpace(s[0])), Join(Words(s), ' '), trail, w);
  }

  lemma Glue(c: string, lead: string, j: string, e: string, w: string)
    requires c == w + e && lead == [] && j == w
    ensures c == lead + j + e
  {
  }

  /** One word followed by more words: the word, one space, then the collapsed rest. */
  lemma WordThenMore(s: string, w: string, rest: string)
    requires s != [] && !IsSpace(s[0]) && w == TakeWord(s) && rest == s[|w|..] && rest != []
    requires Words(rest) != [] && CollapsesToWords(rest)
    ensures CollapsesToWords(s)
  {
    WordSplitsOff(s, w, rest);
    WordsStepAt(s, s, w, rest);
    CollapseWord(w, rest);
    EdgeValues();
    var j, e := Join(Words(rest), ' '), Edge(IsSpace(s[|s| - 1]));
    JoinCons(w, Words(rest));
    assert Collapse(rest) == [' '] + j + e;
    WordThenWords(Collapse(s), w, Collapse(rest), j, e);
    assert Join(Words(s), ' ') == w + [' '] + j;
  }

  /** The first word of a string that starts with one, and what follows it. */
  lemma WordSplitsOff(s: string, w: string, rest: string)
    requires s != [] && !IsSpace(s[0]) && w == TakeWord(s) && rest == s[|w|..]
    ensures s == w + rest && StripLeft(s) == s && w != [] && NoSpace(w)
    ensures rest == [] ==> !IsSpace(s[|s| - 1])
    ensures rest != [] ==> IsSpace(rest[0]) && rest[|rest| - 1] == s[|s| - 1]
  {
    assert w == [s[0]] + TakeWord(s[1..]);
    assert s[..|w|] == w;
    assert s == s[..|w|] + s[|w|..];
    if rest == [] {
      assert s[|s| - 1] == w[|w| - 1];
    } else {
      SuffixEnds(s, |w|, rest);
    }
  }

  lemma SuffixEnds(s: string, n: nat, rest: string)
    requires n < |s| && rest == s[n..]
    ensures rest[0] == s[n] && rest[|rest| - 1] == s[|s| - 1]
  {
  }

  lemma WordThenWords(cs: string, w: string, cr: string, j: string, e: string)
    requires cr == [' '] + j + e && cs == w + cr
    ensures cs == [] + (w + [' '] + j) + e
  {
  }

  /** Collapsing copies a leading whitespace-free stretch unchanged. */
  lemma {:induction false} CollapseWord(w: string, rest: string)
    requires NoSpace(w)
    ensures Collapse(w + rest) == w + Collapse(rest)
  {
    if w == [] {
      assert w + rest == rest;
    } else {
      var s := w + rest;
      assert s[0] == w[0] && !IsSpace(w[0]);
      assert s[1..] == w[1..] + rest;
      assert Collapse(s) == [w[0]] + Collapse(w[1..] + rest);
      CollapseWord(w[1..], rest);
      ConsAppend(w[0], w[1..], Collapse(rest));
      assert [w[0]] + w[1..] == w;
    }
  }

  lemma ConsAppend(c: char, x: string, y: string)
    ensures [c] + (x + y) == ([c] + x) + y
  {
  }

  /** `basic_text_cleanup`: replace the symbols, collapse whitespace, strip. */
  function BasicTextCleanup(text: string): string {
    Strip(Collapse(ApplySymbols(text, SymbolMap, 0)))
  }

  /** `process_text_for_tts` is the same cleanup, so its result is already clean. */
  function ProcessTextForTts(text: string): (r: string)
    ensures r == BasicTextCleanup(text)
    ensures IsClean(r)
  {
    CleanupIsClean(text);
    BasicTextCleanup(text)
  }

  /** Every whitespace character is a plain space, and never followed by another whitespace character. */
  ghost predicate SpacesCollapsed(s: string) {
    && (forall i :: 0 <= i < |s| && IsSpace(s[i]) ==> s[i] == ' ')
    && (forall i, j :: 0 <= i < j < |s| && j == i + 1 ==> !(IsSpace(s[i]) && IsSpace(s[j])))
  }

  /** What the cleanup promises: no symbol left, single spaces, nothing at the ends. */
  ghost predicate IsClean(s: string) {
    && NoSymbol(s)
    && SpacesCollapsed(s)
    && (s == [] || (!IsSpace(s[0]) && !IsSpace(s[|s| - 1])))
  }

  lemma CollapseNoKey(a: string, m: seq<(char, string)>)
    requires WellFormedMap(m) && NoKey(a, m)
    ensures NoKey(Collapse(a), m)
  {
    var c := Collapse(a);
    CollapseShape(a);
    forall i | 0 <= i < |c| ensures !IsKey(m, c[i]) {
      if !IsSpace(c[i]) {
        assert c[i] in a;
      } else {
        assert c[i] == ' ';
      }
    }
  }

  /** Dropping a prefix of collapsed text leaves it collapsed. */
  lemma CollapsedDrop(c: string, lo: nat)
    requires lo <= |c| && SpacesCollapsed(c)
    ensures SpacesCollapsed(c[lo..])
  {
    var r := c[lo..];
    forall i | 0 <= i < |r| && IsSpace(r[i]) ensures r[i] == ' ' {
      assert r[i] == c[lo + i];
    }
    forall i, j | 0 <= i < j < |r| && j == i + 1 ensures !(IsSpace(r[i]) && IsSpace(r[j])) {
      assert r[i] == c[lo + i] && r[j] == c[lo + j];
    }
  }

  /** Dropping a prefix of collapsed text without keys leaves it collapsed and without keys. */
  lemma CleanDrop(c: string, m: seq<(char, string)>, lo: nat)
    requires lo <= |c| && NoKey(c, m) && SpacesCollapsed(c)
    ensures NoKey(c[lo..], m) && SpacesCollapsed(c[lo..])
  {
    var r := c[lo..];
    forall i | 0 <= i < |r| ensures r[i] == c[lo + i] && !IsKey(m, r[i]) {
    }
    CollapsedDrop(c, lo);
  }

  /** Keeping a prefix of collapsed text without keys leaves it collapsed and without keys. */
  lemma CleanTake(c: string, m: seq<(char, string)>, hi: nat)
    requires hi <= |c| && NoKey(c, m) && SpacesCollapsed(c)
    ensures NoKey(c[..hi], m) && SpacesCollapsed(c[..hi])
  {
    var r := c[..hi];
    forall i | 0 <= i < |r| ensures r[i] == c[i] && !IsKey(m, r[i]) {
    }
    forall i, j | 0 <= i < j < |r| && j == i + 1 ensures !(IsSpace(r[i]) && IsSpace(r[j])) {
      assert r[i] == c[i] && r[j] == c[j];
    }
  }

  lemma StripClean(c: string, m: seq<(char, string)>)
    requires NoKey(c, m) && SpacesCollapsed(c)
    ensures var r := Strip(c);
      && NoKey(r, m)
      && SpacesCollapsed(r)
      && (r == [] || (!IsSpace(r[0]) && !IsSpace(r[|r| - 1])))
  {
    var l := StripLeft(c);
    CleanDrop(c, m, |c| - |l|);
    CleanTake(l, m, |StripRight(l)|);
  }

  /** The cleanup's steps, for any well-formed table, leave no key and normalised whitespace. */
  lemma CleanupStepsClean(text: string, m: seq<(char, string)>)
    requires WellFormedMap(m)
    ensures var r := Strip(Collapse(ApplySymbols(text, m, 0)));
      && NoKey(r, m)
      && SpacesCollapsed(r)
      && (r == [] || (!IsSpace(r[0]) && !IsSpace(r[|r| - 1])))
  {
    var a := ApplySymbols(text, m, 0);
    ApplySymbolsIsTranslate(text, m, 0);
    assert m[0..] == m;
    TranslateNoKey(text, m);
    CollapseNoKey(a, m);
    CollapseShape(a);
    StripClean(Collapse(a), m);
  }

  /** The cleanup's output is clean. */
  lemma CleanupIsClean(text: string)
    ensures IsClean(BasicTextCleanup(text))
  {
    SymbolMapWellFormed();
    CleanupStepsClean(text, SymbolMap);
  }

  lemma {:induction false} ReplaceAbsent(s: string, k: char, v: string)
    requires k !in s
    ensures ReplaceChar(s, k, v) == s
  {
    if s != [] {
      ReplaceAbsent(s[1..], k, v);
    }
  }

  lemma {:induction false} ApplySymbolsAbsent(s: string, m: seq<(char, string)>, i: nat)
    requires forall j :: i <= j < |m| ==> m[j].0 !in s
    ensures ApplySymbols(s, m, i) == s
    decreases |m| - i
  {
    if i < |m| {
      ReplaceAbsent(s, m[i].0, m[i].1);
      ApplySymbolsAbsent(s, m, i + 1);
    }
  }

  lemma {:induction false} CollapseCollapsed(s: string)
    requires SpacesCollapsed(s)
    ensures Collapse(s) == s
    decreases |s|
  {
    if s != [] {
      var tail := s[1..];
      CollapsedDrop(s, 1);
      CollapseCollapsed(tail);
      if IsSpace(s[0]) {
        LoneSpace(s);
        assert Collapse(s) == [' '] + Collapse(tail);
      } else {
        assert Collapse(s) == [s[0]] + Collapse(tail);
      }
      assert s == [s[0]] + tail;
    }
  }

  /** In collapsed text a leading whitespace is one plain space, and stripping removes just it. */
  lemma LoneSpace(s: string)
    requires SpacesCollapsed(s) && s != [] && IsSpace(s[0])
    ensures s[0] == ' ' && StripLeft(s) == s[1..]
  {
    if |s| > 1 {
      assert !IsSpace(s[1]) by { assert 0 < 1 < |s|; }
    }
    assert StripLeft(s) == StripLeft(s[1..]);
  }

  /** A clean text is a fixed point of the cleanup. */
  lemma CleanIsFixpoint(s: string)
    requires IsClean(s)
    ensures BasicTextCleanup(s) == s
  {
    assert forall i :: 0 <= i < |SymbolMap| ==> SymbolMap[i].0 !in s;
    ApplySymbolsAbsent(s, SymbolMap, 0);
    CollapseCollapsed(s);
  }

  /** Cleaning twice is cleaning once. */
  lemma CleanupIdempotent(text: string)
    ensures BasicTextCleanup(BasicTextCleanup(text)) == BasicTextCleanup(text)
  {
    CleanupIsClean(text);
    CleanIsFixpoint(BasicTextCleanup(text));
  }
}
