/**
 * The Python `str` operations the core relies on, over `seq<char>`:
 * whitespace classes, strip, lower, prefix and suffix tests, substring
 * search and counting, and the two kinds of split.
 */
module Strings {
  import opened Common

  /** Python's `str.isspace()` on one character; `\s` in a `str` regex matches the same class. */
  predicate IsSpace(c: char) {
    || c == ' '
    || ('\t' <= c <= '\r')
    || ('\U{1C}' <= c <= '\U{1F}')
    || c == '\U{85}' || c == '\U{A0}' || c == '\U{1680}'
    || ('\U{2000}' <= c <= '\U{200A}')
    || c == '\U{2028}' || c == '\U{2029}' || c == '\U{202F}' || c == '\U{205F}' || c == '\U{3000}'
  }

  predicate NoSpace(s: string) {
    forall i :: 0 <= i < |s| ==> !IsSpace(s[i])
  }

  /** Every character is whitespace, so `s.strip()` is empty. */
  predicate IsBlank(s: string) {
    forall i :: 0 <= i < |s| ==> IsSpace(s[i])
  }

  lemma NotBlank(s: string, i: nat)
    requires i < |s| && !IsSpace(s[i])
    ensures !IsBlank(s)
  {
  }

  /** `s.lstrip()`: the longest suffix of `s` that does not start with whitespace. */
  function StripLeft(s: string): (r: string)
    ensures |r| <= |s| && r == s[|s| - |r|..]
    ensures r == [] || !IsSpace(r[0])
    ensures forall i :: 0 <= i < |s| - |r| ==> IsSpace(s[i])
  {
    if s != [] && IsSpace(s[0]) then StripLeft(s[1..]) else s
  }

  /** `s.rstrip()`: the longest prefix of `s` that does not end with whitespace. */
  function StripRight(s: string): (r: string)
    ensures |r| <= |s| && r == s[..|r|]
    ensures r == [] || !IsSpace(r[|r| - 1])
    ensures forall i :: |r| <= i < |s| ==> IsSpace(s[i])
  {
    if s != [] && IsSpace(s[|s| - 1]) then StripRight(s[..|s| - 1]) else s
  }

  /** `r` is what is left of `s` once `i` leading and some trailing whitespace characters are cut. */
  predicate StripsTo(s: string, r: string, i: int) {
    && 0 <= i <= |s| - |r|
    && r == s[i..i + |r|]
    && (forall k :: 0 <= k < i ==> IsSpace(s[k]))
    && (forall k :: i + |r| <= k < |s| ==> IsSpace(s[k]))
  }

  /** `s.strip()`. */
  function Strip(s: string): (r: string)
    ensures r == [] || (!IsSpace(r[0]) && !IsSpace(r[|r| - 1]))
    ensures s == [] || (!IsSpace(s[0]) && !IsSpace(s[|s| - 1])) ==> r == s
    ensures exists i :: StripsTo(s, r, i)
  {
    StripSlice(s);
    StripEnds(s);
    StripRight(StripLeft(s))
  }

  lemma StripEnds(s: string)
    ensures var r := StripRight(StripLeft(s));
      && (r == [] || (!IsSpace(r[0]) && !IsSpace(r[|r| - 1])))
      && (s == [] || (!IsSpace(s[0]) && !IsSpace(s[|s| - 1])) ==> r == s)
  {
    var l := StripLeft(s);
    var r := StripRight(l);
    if r != [] {
      assert r[0] == l[0];
    }
  }

  lemma StripSlice(s: string)
    ensures StripsTo(s, StripRight(StripLeft(s)), |s| - |StripLeft(s)|)
  {
    var l := StripLeft(s);
    CutBoth(s, l, StripRight(l), |s| - |l|);
  }

  /** A blank-ended prefix of a suffix of `s` is a slice of `s` with blank ends. */
  lemma CutBoth(s: string, l: string, r: string, i: int)
    requires 0 <= i <= |s| && l == s[i..] && forall k :: 0 <= k < i ==> IsSpace(s[k])
    requires |r| <= |l| && r == l[..|r|] && forall k :: |r| <= k < |l| ==> IsSpace(l[k])
    ensures StripsTo(s, r, i)
  {
    forall k | i + |r| <= k < |s|
      ensures IsSpace(s[k])
    {
      assert s[k] == l[k - i];
    }
  }

  /** Stripping leaves nothing exactly when every character is whitespace. */
  lemma StripEmptyIffBlank(s: string)
    ensures Strip(s) == [] <==> IsBlank(s)
  {
    var l := StripLeft(s);
    assert IsBlank(s) ==> l == [];
  }

  /**
   * `str.lower()` on one character, for ASCII, Latin-1 and the Turkish
   * letters: capital dotted I lowers to two characters, as in Python.
   */
  function LowerChar(c: char): string {
    if 'A' <= c <= 'Z' || ('\U{C0}' <= c <= '\U{DE}' && c != '\U{D7}') then [(c as int + 32) as char]
    else if c == '\U{11E}' || c == '\U{15E}' then [(c as int + 1) as char]
    else if c == '\U{130}' then ['i', '\U{307}']
    else [c]
  }

  function Lower(s: string): string {
    if s == [] then [] else LowerChar(s[0]) + Lower(s[1..])
  }

  predicate HasPrefix(s: string, p: string) {
    |p| <= |s| && s[..|p|] == p
  }

  /** `s.endswith(p)`. */
  predicate EndsWith(s: string, p: string) {
    |p| <= |s| && s[|s| - |p|..] == p
  }

  predicate OccursAt(s: string, p: string, i: int) {
    0 <= i && i + |p| <= |s| && s[i..i + |p|] == p
  }

  /** `p in s`. */
  predicate Contains(s: string, p: string) {
    exists i :: 0 <= i <= |s| && OccursAt(s, p, i)
  }

  /** `s.find(p)`, with `None` for -1: the first position where `p` occurs. */
  function Find(s: string, p: string): (r: Option<nat>)
    ensures r.Some? ==> OccursAt(s, p, r.value)
    ensures r.Some? ==> forall j :: 0 <= j < r.value ==> !OccursAt(s, p, j)
    ensures r.None? ==> forall j :: 0 <= j ==> !OccursAt(s, p, j)
  {
    FindFrom(s, p, 0)
  }

  function FindFrom(s: string, p: string, k: nat): (r: Option<nat>)
    requires forall j :: 0 <= j < k ==> !OccursAt(s, p, j)
    ensures r.Some? ==> k <= r.value && OccursAt(s, p, r.value)
    ensures r.Some? ==> forall j :: 0 <= j < r.value ==> !OccursAt(s, p, j)
    ensures r.None? ==> forall j :: 0 <= j ==> !OccursAt(s, p, j)
    decreases |s| - k
  {
    if k + |p| > |s| then None
    else if OccursAt(s, p, k) then Some(k)
    else FindFrom(s, p, k + 1)
  }

  /** `s.count(p)`: non-overlapping occurrences, scanning from the left; `len(s) + 1` for an empty `p`. */
  function Count(s: string, p: string): nat
    decreases |s|
  {
    if p == [] then |s| + 1
    else if |s| < |p| then 0
    else if HasPrefix(s, p) then 1 + Count(s[|p|..], p)
    else Count(s[1..], p)
  }

  /** A non-empty pattern is counted at least once exactly when it occurs. */
  lemma {:induction false} CountPositiveIffContains(s: string, p: string)
    requires p != []
    ensures Count(s, p) > 0 <==> Contains(s, p)
    decreases |s|
  {
    if |s| < |p| {
      assert forall i :: !OccursAt(s, p, i);
    } else if HasPrefix(s, p) {
      assert OccursAt(s, p, 0);
    } else {
      CountPositiveIffContains(s[1..], p);
      if Contains(s, p) {
        var i :| 0 <= i <= |s| && OccursAt(s, p, i);
        assert i != 0;
        assert s[1..][i - 1..i - 1 + |p|] == s[i..i + |p|];
        assert OccursAt(s[1..], p, i - 1);
      }
      if Contains(s[1..], p) {
        var i :| 0 <= i <= |s[1..]| && OccursAt(s[1..], p, i);
        assert s[1..][i..i + |p|] == s[i + 1..i + 1 + |p|];
        assert OccursAt(s, p, i + 1);
      }
    }
  }

  /** `s.split(sep)` with an explicit one-character separator: never empty, `""` gives `[""]`. */
  function Split(s: string, sep: char): (r: seq<string>)
    ensures |r| >= 1
    ensures forall i :: 0 <= i < |r| ==> sep !in r[i]
  {
    if s == [] then [[]]
    else
      var rest := Split(s[1..], sep);
      if s[0] == sep then [[]] + rest else [[s[0]] + rest[0]] + rest[1..]
  }

  /** `sep.join(ws)`. */
  function Join(ws: seq<string>, sep: char): string
    requires |ws| >= 1
  {
    if |ws| == 1 then ws[0] else ws[0] + [sep] + Join(ws[1..], sep)
  }

  /** Splitting and joining on the same separator gives the string back. */
  lemma {:induction false} JoinSplit(s: string, sep: char)
    ensures Join(Split(s, sep), sep) == s
  {
    if s != [] {
      var rest := Split(s[1..], sep);
      JoinSplit(s[1..], sep);
      if s[0] == sep {
        assert Split(s, sep) == [[]] + rest;
      } else {
        var r := Split(s, sep);
        assert r == [[s[0]] + rest[0]] + rest[1..];
        if |rest| == 1 {
          assert Join(r, sep) == [s[0]] + rest[0];
        } else {
          assert r[1..] == rest[1..];
          assert Join(rest, sep) == rest[0] + [sep] + Join(rest[1..], sep);
        }
      }
    }
  }

  /** Joining pieces that hold no separator and splitting again gives the pieces back. */
  lemma {:induction false} SplitJoin(ws: seq<string>, sep: char)
    requires |ws| >= 1
    requires forall i :: 0 <= i < |ws| ==> sep !in ws[i]
    ensures Split(Join(ws, sep), sep) == ws
    decreases |Join(ws, sep)|
  {
    if ws[0] == [] {
      if |ws| > 1 {
        JoinEmptyHead(ws, sep);
        SplitJoin(ws[1..], sep);
        SplitCons(sep, Join(ws[1..], sep), sep);
        assert ws == [[]] + ws[1..];
      }
    } else {
      var w := ws[0];
      var ws' := [w[1..]] + ws[1..];
      assert sep !in w[1..] by {
        forall c | c in w[1..] ensures c != sep { assert c in w; }
      }
      JoinShift(ws, ws', sep);
      SplitJoin(ws', sep);
      SplitCons(w[0], Join(ws', sep), sep);
      assert [w[0]] + w[1..] == w;
      assert ws == [w] + ws'[1..];
    }
  }

  /** An empty first piece leaves the separator in front. */
  lemma JoinEmptyHead(ws: seq<string>, sep: char)
    requires |ws| > 1 && ws[0] == []
    ensures Join(ws, sep) == [sep] + Join(ws[1..], sep)
  {
  }

  /** The first character of a non-empty first piece comes first. */
  lemma JoinShift(ws: seq<string>, ws': seq<string>, sep: char)
    requires |ws| >= 1 && ws[0] != [] && ws' == [ws[0][1..]] + ws[1..]
    ensures Join(ws, sep) == [ws[0][0]] + Join(ws', sep)
  {
    var w := ws[0];
    assert ws'[1..] == ws[1..];
    assert w == [w[0]] + w[1..];
    if |ws| > 1 {
      assert Join(ws', sep) == w[1..] + [sep] + Join(ws[1..], sep);
    }
  }

  /** Splitting reads one character at a time. */
  lemma SplitCons(c: char, x: string, sep: char)
    ensures Split([c] + x, sep) ==
      if c == sep then [[]] + Split(x, sep) else [[c] + Split(x, sep)[0]] + Split(x, sep)[1..]
  {
    assert ([c] + x)[1..] == x;
  }

  /** The leading run of non-whitespace characters. */
  function TakeWord(s: string): (w: string)
    ensures HasPrefix(s, w) && NoSpace(w)
    ensures |w| == |s| || IsSpace(s[|w|])
  {
    if s == [] || IsSpace(s[0]) then [] else [s[0]] + TakeWord(s[1..])
  }

  /** `s.split()` with no argument: the maximal whitespace-free runs, in order. */
  function Words(s: string): (ws: seq<string>)
    ensures forall i :: 0 <= i < |ws| ==> ws[i] != [] && NoSpace(ws[i])
    decreases |s|
  {
    var t := StripLeft(s);
    if t == [] then []
    else
      var w := TakeWord(t);
      assert w != [] by { assert !IsSpace(t[0]); }
      var rest := Words(t[|w|..]);
      ConsWord(w, rest);
      [w] + rest
  }

  lemma ConsWord(w: string, rest: seq<string>)
    requires w != [] && NoSpace(w)
    requires forall i :: 0 <= i < |rest| ==> rest[i] != [] && NoSpace(rest[i])
    ensures var ws := [w] + rest; forall i :: 0 <= i < |ws| ==> ws[i] != [] && NoSpace(ws[i])
  {
    var ws := [w] + rest;
    forall i | 0 <= i < |ws| ensures ws[i] != [] && NoSpace(ws[i]) {
      if i > 0 { assert ws[i] == rest[i - 1]; }
    }
  }

  /** `lstrip` keeps the last character of a string that is not all whitespace. */
  lemma StripLeftLast(s: string)
    requires StripLeft(s) != []
    ensures var t := StripLeft(s); t[|t| - 1] == s[|s| - 1] && !IsSpace(t[0])
  {
  }

  /** Leading whitespace disappears into `lstrip` whatever follows it. */
  lemma {:induction false} StripLeftBlankPrefix(a: string, b: string)
    requires IsBlank(a)
    ensures StripLeft(a + b) == StripLeft(b)
  {
    if a == [] {
      assert a + b == b;
    } else {
      assert (a + b)[0] == a[0];
      assert (a + b)[1..] == a[1..] + b;
      assert IsBlank(a[1..]) by {
        forall k | 0 <= k < |a| - 1 ensures IsSpace(a[1..][k]) {
          assert a[1..][k] == a[k + 1];
        }
      }
      StripLeftBlankPrefix(a[1..], b);
    }
  }

  /** Once a non-whitespace character is reached, `lstrip` leaves the rest alone. */
  lemma {:induction false} StripLeftAppend(a: string, b: string)
    requires !IsBlank(a)
    ensures StripLeft(a + b) == StripLeft(a) + b
  {
    if IsSpace(a[0]) {
      var k :| 0 <= k < |a| && !IsSpace(a[k]);
      assert a[1..][k - 1] == a[k];
      assert (a + b)[1..] == a[1..] + b;
      StripLeftAppend(a[1..], b);
    }
  }

  /** A word already ended by whitespace, or by the end of `a`, is unchanged by what follows. */
  lemma {:induction false} TakeWordAppend(a: string, b: string)
    requires |TakeWord(a)| < |a| || b == [] || IsSpace(b[0])
    ensures TakeWord(a + b) == TakeWord(a)
  {
    if a != [] && !IsSpace(a[0]) {
      assert (a + b)[1..] == a[1..] + b;
      TakeWordAppend(a[1..], b);
    }
  }

  /** A string splits into no words exactly when it is all whitespace. */
  lemma WordsEmptyIffBlank(s: string)
    ensures Words(s) == [] <==> IsBlank(s)
  {
    var t := StripLeft(s);
    if t != [] {
      assert !IsSpace(s[|s| - |t|]);
    }
  }

  /** A non-empty string without words ends with whitespace. */
  lemma WordsEmptyLastSpace(s: string)
    requires s != [] && Words(s) == []
    ensures IsSpace(s[|s| - 1])
  {
    WordsEmptyIffBlank(s);
  }

  /** A non-empty whitespace-free string is a single word. */
  lemma WordsSingle(w: string)
    requires w != [] && NoSpace(w)
    ensures Words(w) == [w]
  {
    assert StripLeft(w) == w;
    var t := TakeWord(w);
    assert t == w;
    assert w[|t|..] == [];
  }

  lemma ConsAssoc<T>(w: T, x: seq<T>, y: seq<T>)
    ensures [w] + (x + y) == ([w] + x) + y
  {
  }

  lemma DropAppend(x: string, y: string, k: nat)
    requires k <= |x|
    ensures (x + y)[k..] == x[k..] + y
  {
  }

  /** One step of `split()`: the first word after the leading whitespace, then the words of the rest. */
  lemma WordsStep(s: string)
    ensures StripLeft(s) == [] ==> Words(s) == []
    ensures StripLeft(s) != [] ==>
      var t := StripLeft(s);
      var w := TakeWord(t);
      w != [] && Words(s) == [w] + Words(t[|w|..])
  {
    var t := StripLeft(s);
    if t != [] {
      assert !IsSpace(t[0]);
    }
  }

  lemma WordsBlankPrefix(a: string, c: char, b: string)
    requires IsSpace(c) && IsBlank(a)
    ensures Words(a + [c] + b) == Words(b) && Words(a) == []
  {
    var ac := a + [c];
    assert IsBlank(ac) by {
      forall k | 0 <= k < |ac| ensures IsSpace(ac[k]) {
        if k < |a| { assert ac[k] == a[k]; }
      }
    }
    assert a + [c] + b == ac + b;
    StripLeftBlankPrefix(ac, b);
    WordsEmptyIffBlank(a);
    WordsStep(a + [c] + b);
    WordsStep(b);
  }

  lemma WordsNotBlank(a: string) returns (w: string, ra: string)
    requires !IsBlank(a)
    ensures var ta := StripLeft(a); ta != [] && w == TakeWord(ta) && ra == ta[|w|..]
    ensures |ra| < |a| && Words(a) == [w] + Words(ra)
  {
    WordsEmptyIffBlank(a);
    var ta := StripLeft(a);
    w := TakeWord(ta);
    ra := ta[|w|..];
    WordsStep(a);
  }

  /** The first word of `a` is also the first word of `a`, whitespace, `b`. */
  lemma WordsSplitStep(a: string, c: char, b: string) returns (w: string, ra: string)
    requires IsSpace(c) && !IsBlank(a)
    ensures |ra| < |a|
    ensures Words(a) == [w] + Words(ra)
    ensures Words(a + [c] + b) == [w] + Words(ra + [c] + b)
  {
    w, ra := WordsNotBlank(a);
    WordsPastFirst(a, c, b);
  }

  lemma WordsPastFirst(a: string, c: char, b: string)
    requires IsSpace(c) && StripLeft(a) != []
    ensures var ta := StripLeft(a); var w := TakeWord(ta);
      Words(a + [c] + b) == [w] + Words(ta[|w|..] + [c] + b)
  {
    var s := a + [c] + b;
    assert s == a + ([c] + b);
    StripLeftAppend(a, [c] + b);
    WordsStripLeft(s);
    WordsAfterWord(StripLeft(s), StripLeft(a), c, b);
  }

  /** `split()` ignores leading whitespace. */
  lemma WordsStripLeft(s: string)
    ensures Words(s) == Words(StripLeft(s))
  {
    WordsStep(s);
    WordsStep(StripLeft(s));
  }

  /** Past its leading whitespace, a string whose first word ends before `c` splits into that word and the rest. */
  lemma WordsAfterWord(s: string, t: string, c: char, b: string)
    requires IsSpace(c) && t != [] && !IsSpace(t[0]) && s == t + ([c] + b)
    ensures var w := TakeWord(t);
      Words(s) == [w] + Words(t[|w|..] + [c] + b)
  {
    var w := TakeWord(t);
    assert StripLeft(s) == s;
    TakeWordAppend(t, [c] + b);
    DropAppend(t, [c] + b, |w|);
    WordsStepAt(s, s, w, t[|w|..] + [c] + b);
  }

  lemma WordsStepAt(s: string, t: string, w: string, rest: string)
    requires t == StripLeft(s) && t != [] && w == TakeWord(t) && |w| <= |t| && rest == t[|w|..]
    ensures Words(s) == [w] + Words(rest)
  {
    WordsStep(s);
  }

  /**
   * `split()` respects whitespace: cutting the string at a whitespace
   * character splits its words into those before and those after, in order.
   */
  lemma {:induction false} WordsSplit(a: string, c: char, b: string)
    requires IsSpace(c)
    ensures Words(a + [c] + b) == Words(a) + Words(b)
    decreases |a|
  {
    if IsBlank(a) {
      WordsBlankPrefix(a, c, b);
    } else {
      var w, ra := WordsSplitStep(a, c, b);
      WordsSplit(ra, c, b);
      ConsAssoc(w, Words(ra), Words(b));
    }
  }

  lemma {:induction false} LowerAppend(a: string, b: string)
    ensures Lower(a + b) == Lower(a) + Lower(b)
  {
    if a == [] {
      assert a + b == b;
    } else {
      assert (a + b)[0] == a[0];
      assert (a + b)[1..] == a[1..] + b;
      LowerAppend(a[1..], b);
    }
  }

  /** Lowering never turns a character into whitespace and never empties a string. */
  lemma {:induction false} LowerNoSpace(w: string)
    requires NoSpace(w)
    ensures NoSpace(Lower(w)) && |Lower(w)| >= |w|
  {
    if w != [] {
      assert !IsSpace(w[0]);
      LowerNoSpace(w[1..]);
      var h, t := LowerChar(w[0]), Lower(w[1..]);
      assert NoSpace(h);
      assert forall k :: 0 <= k < |h + t| ==> (h + t)[k] == if k < |h| then h[k] else t[k - |h|];
    }
  }

  predicate IsDigit(c: char) { '0' <= c <= '9' }

  /** The number a string of decimal digits denotes, most significant first. */
  function DigitsValue(s: string): nat
    requires forall i :: 0 <= i < |s| ==> IsDigit(s[i])
  {
    if s == [] then 0
    else
      assert IsDigit(s[|s| - 1]);
      DigitsValue(s[..|s| - 1]) * 10 + (s[|s| - 1] as int - '0' as int)
  }

  /** `str(n)` for a natural number: its decimal digits, most significant first, without leading zeros. */
  function NatToString(n: nat): (r: string)
    ensures r != [] && forall i :: 0 <= i < |r| ==> IsDigit(r[i])
    ensures DigitsValue(r) == n
    ensures r[0] == '0' ==> r == "0"
  {
    var d := ['0' + (n % 10) as char];
    if n < 10 then d
    else
      var h := NatToString(n / 10);
      assert (h + d)[..|h + d| - 1] == h;
      h + d
  }
}
