/** The parts of Python's `str` type that the bot relies on: `startswith`,
    `lower` (restricted to ASCII letters), `replace(" ", "_")` and `split()`
    with no argument. */
module Text {

  /** `s.startswith(prefix)`. */
  function StartsWith(s: string, prefix: string): (b: bool)
    ensures b <==> |prefix| <= |s| && forall i :: 0 <= i < |prefix| ==> s[i] == prefix[i]
  {
    |prefix| <= |s| && s[..|prefix|] == prefix
  }

  predicate IsUpper(c: char)
  {
    'A' <= c <= 'Z'
  }

  /** ASCII case folding of one character. */
  function LowerChar(c: char): (d: char)
    ensures !IsUpper(d)
    ensures IsUpper(c) ==> d as int == c as int + 32
    ensures !IsUpper(c) ==> d == c
  {
    if IsUpper(c) then (c as int + 32) as char else c
  }

  /** `s.lower()`, on ASCII letters only. */
  function Lower(s: string): (r: string)
    ensures |r| == |s|
    ensures forall i :: 0 <= i < |s| ==> r[i] == LowerChar(s[i])
  {
    if s == [] then [] else [LowerChar(s[0])] + Lower(s[1..])
  }

  /** `s.replace(" ", "_")`. */
  function ReplaceSpaces(s: string): (r: string)
    ensures |r| == |s|
    ensures forall i :: 0 <= i < |s| ==> r[i] == if s[i] == ' ' then '_' else s[i]
  {
    if s == [] then [] else [if s[0] == ' ' then '_' else s[0]] + ReplaceSpaces(s[1..])
  }

  /** The characters that `str.split()` with no argument separates on
      (CPython's whitespace table). */
  predicate IsSpace(c: char)
  {
    var n := c as int;
    (9 <= n <= 13) || (28 <= n <= 32) || n == 0x85 || n == 0xA0 || n == 0x1680
    || (0x2000 <= n <= 0x200A) || n == 0x2028 || n == 0x2029 || n == 0x202F
    || n == 0x205F || n == 0x3000
  }

  /** What `split()` yields: non-empty and free of whitespace. */
  predicate IsWord(w: string)
  {
    |w| > 0 && forall i :: 0 <= i < |w| ==> !IsSpace(w[i])
  }

  /** The end of the run of non-whitespace characters that starts at `i`. */
  function WordEnd(s: string, i: nat): (k: nat)
    requires i <= |s|
    ensures i <= k <= |s|
    ensures forall j :: i <= j < k ==> !IsSpace(s[j])
    ensures k == |s| || IsSpace(s[k])
    decreases |s| - i
  {
    if i == |s| || IsSpace(s[i]) then i else WordEnd(s, i + 1)
  }

  /** `s.split()`: the maximal runs of non-whitespace characters, in order;
      leading, trailing and repeated whitespace produce no empty words. */
  function Words(s: string): (ws: seq<string>)
    ensures forall i :: 0 <= i < |ws| ==> |ws[i]| > 0
    decreases |s|
  {
    if s == [] then []
    else if IsSpace(s[0]) then Words(s[1..])
    else
      var k := WordEnd(s, 0);
      [s[..k]] + Words(s[k..])
  }

  /** `" ".join(ws)`, the reference `Words` is checked against. */
  function Join(ws: seq<string>): string
  {
    if |ws| == 0 then ""
    else if |ws| == 1 then ws[0]
    else ws[0] + " " + Join(ws[1..])
  }

  lemma {:induction false} WordsAreWords(s: string)
    ensures forall i :: 0 <= i < |Words(s)| ==> IsWord(Words(s)[i])
    decreases |s|
  {
    if s == [] {
    } else if IsSpace(s[0]) {
      WordsAreWords(s[1..]);
    } else {
      var k := WordEnd(s, 0);
      WordsAreWords(s[k..]);
    }
  }

  lemma {:induction false} WordEndIs(s: string, i: nat, k: nat)
    requires i <= k <= |s|
    requires forall j :: i <= j < k ==> !IsSpace(s[j])
    requires k == |s| || IsSpace(s[k])
    ensures WordEnd(s, i) == k
    decreases k - i
  {
    if i < k {
      WordEndIs(s, i + 1, k);
    }
  }

  /** A word followed by one space splits off as the first word. */
  lemma WordsOfWordThen(w: string, rest: string)
    requires IsWord(w)
    ensures Words(w) == [w]
    ensures Words(w + " " + rest) == [w] + Words(rest)
  {
    WordEndIs(w, 0, |w|);
    assert w[..|w|] == w && w[|w|..] == [];
    var s := w + " " + rest;
    WordEndIs(s, 0, |w|);
    assert s[..|w|] == w;
    assert s[|w|..] == " " + rest;
    assert (" " + rest)[1..] == rest;
  }

  /** `split()` yields no word exactly when the string is whitespace only. */
  lemma {:induction false} WordsNoneIff(s: string)
    ensures Words(s) == [] <==> forall i :: 0 <= i < |s| ==> IsSpace(s[i])
    decreases |s|
  {
    if s != [] && IsSpace(s[0]) {
      WordsNoneIff(s[1..]);
      assert forall i :: 1 <= i < |s| ==> s[i] == s[1..][i - 1];
    }
  }

  /** `split()` undoes `" ".join(...)` on a list of words. */
  lemma {:induction false} WordsJoin(ws: seq<string>)
    requires forall i :: 0 <= i < |ws| ==> IsWord(ws[i])
    ensures Words(Join(ws)) == ws
  {
    if |ws| == 1 {
      WordsOfWordThen(ws[0], "");
    } else if |ws| > 1 {
      WordsOfWordThen(ws[0], Join(ws[1..]));
      WordsJoin(ws[1..]);
      assert [ws[0]] + ws[1..] == ws;
    }
  }

  /** Any one whitespace character separates words: `split()` of
      `a + [c] + b` is the words of `a` followed by the words of `b`. */
  lemma {:induction false} WordsSplitAtSpace(a: string, c: char, b: string)
    requires IsSpace(c)
    ensures Words(a + [c] + b) == Words(a) + Words(b)
    decreases |a|
  {
    var s := a + [c] + b;
    assert forall j :: 0 <= j < |a| ==> s[j] == a[j];
    assert s[|a|] == c;
    if a == [] {
      assert s[1..] == b;
    } else if IsSpace(a[0]) {
      assert s[1..] == a[1..] + [c] + b;
      WordsSplitAtSpace(a[1..], c, b);
    } else {
      var k := WordEnd(a, 0);
      WordEndIs(s, 0, k);
      assert s[..k] == a[..k];
      assert s[k..] == a[k..] + [c] + b;
      WordsSplitAtSpace(a[k..], c, b);
    }
  }

  /** Tabs, newlines and runs of spaces all separate words, and produce no
      empty ones. */
  lemma WordsExample()
    ensures Words("a\t\n b  c ") == ["a", "b", "c"]
  {
    var s0, s1, s2, s3, s4, s5, s6, s7, s8 :=
      "a\t\n b  c ", "\t\n b  c ", "\n b  c ", " b  c ", "b  c ", "  c ", " c ", "c ", " ";
    WordEndIs(s0, 0, 1);
    assert s0[..1] == "a" && s0[1..] == s1;
    assert s1[1..] == s2 && s2[1..] == s3 && s3[1..] == s4;
    WordEndIs(s4, 0, 1);
    assert s4[..1] == "b" && s4[1..] == s5;
    assert s5[1..] == s6 && s6[1..] == s7;
    WordEndIs(s7, 0, 1);
    assert s7[..1] == "c" && s7[1..] == s8;
    assert s8[1..] == [];
  }
}
