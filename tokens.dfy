/** The string operations decrypt.py reads its input with: `str.strip()`,
    `str.split()` with no separator, and `int(token, 2)` on tokens made of
    the digits 0 and 1. */
module Tokens {
  import opened Wrappers
  import opened Bits

  /** The characters Python's `str.isspace()` accepts, which `strip()` and
      `split()` treat as whitespace. */
  predicate IsSpace(ch: char)
  {
    || ch == ' '
    || '\t' <= ch <= '\r'
    || '\U{1C}' <= ch <= '\U{1F}'
    || ch == '\U{85}' || ch == '\U{A0}' || ch == '\U{1680}'
    || '\U{2000}' <= ch <= '\U{200A}'
    || ch == '\U{2028}' || ch == '\U{2029}' || ch == '\U{202F}' || ch == '\U{205F}' || ch == '\U{3000}'
  }

  predicate NoSpace(w: string)
  {
    forall i :: 0 <= i < |w| ==> !IsSpace(w[i])
  }

  /** A word `split()` can produce: non-empty, without whitespace. */
  predicate IsToken(w: string)
  {
    |w| > 0 && NoSpace(w)
  }

  /** The string with every whitespace character removed. */
  function RemoveSpaces(s: string): string
  {
    if s == [] then [] else (if IsSpace(s[0]) then [] else [s[0]]) + RemoveSpaces(s[1..])
  }

  function Concat(ws: seq<string>): string
  {
    if ws == [] then [] else ws[0] + Concat(ws[1..])
  }

  function StripLeft(s: string): (r: string)
    ensures |r| <= |s| && r == s[|s| - |r|..]
    ensures forall i :: 0 <= i < |s| - |r| ==> IsSpace(s[i])
    ensures r == [] || !IsSpace(r[0])
  {
    if s == [] || !IsSpace(s[0]) then s else StripLeft(s[1..])
  }

  function StripRight(s: string): (r: string)
    ensures |r| <= |s| && r == s[..|r|]
    ensures forall i :: |r| <= i < |s| ==> IsSpace(s[i])
    ensures r == [] || !IsSpace(r[|r| - 1])
  {
    if s == [] || !IsSpace(s[|s| - 1]) then s else StripRight(s[..|s| - 1])
  }

  /** `s.strip()`: the part of `s` between its leading and its trailing
      whitespace. */
  function Strip(s: string): (r: string)
    ensures var i := |s| - |StripLeft(s)|;
      && i + |r| <= |s| && r == s[i..i + |r|]
      && (forall j :: 0 <= j < i ==> IsSpace(s[j]))
      && (forall j :: i + |r| <= j < |s| ==> IsSpace(s[j]))
    ensures r == [] || (!IsSpace(r[0]) && !IsSpace(r[|r| - 1]))
  {
    var l := StripLeft(s);
    var r := StripRight(l);
    StripSlices(s, l, r);
    r
  }

  lemma StripSlices(s: string, l: string, r: string)
    requires |l| <= |s| && l == s[|s| - |l|..]
    requires |r| <= |l| && r == l[..|r|]
    requires forall j :: |r| <= j < |l| ==> IsSpace(l[j])
    ensures var i := |s| - |l|; r == s[i..i + |r|] && forall j :: i + |r| <= j < |s| ==> IsSpace(s[j])
  {
    var i := |s| - |l|;
    forall j | i + |r| <= j < |s| ensures IsSpace(s[j]) {
      assert s[j] == l[j - i];
    }
  }

  /** `split()` scanning `s` with `cur` the word read so far. */
  function SplitFrom(s: string, cur: string): (r: seq<string>)
    requires NoSpace(cur)
    ensures forall k :: 0 <= k < |r| ==> IsToken(r[k])
    ensures Concat(r) == cur + RemoveSpaces(s)
    decreases |s|
  {
    if s == [] then
      (if cur == [] then [] else [cur])
    else if IsSpace(s[0]) then
      var rest := SplitFrom(s[1..], []);
      if cur == [] then rest
      else
        assert ([cur] + rest)[1..] == rest;
        [cur] + rest
    else
      var r := SplitFrom(s[1..], cur + [s[0]]);
      assert cur + [s[0]] + RemoveSpaces(s[1..]) == cur + RemoveSpaces(s);
      r
  }

  /** `s.split()`: the maximal runs of non-whitespace characters of `s`, in
      order; together they are `s` without its whitespace. */
  function Split(s: string): (r: seq<string>)
    ensures forall k :: 0 <= k < |r| ==> IsToken(r[k])
    ensures Concat(r) == RemoveSpaces(s)
  {
    SplitFrom(s, [])
  }

  /** The words joined with single spaces, as `" ".join(words)`. */
  function JoinSpaced(ws: seq<string>): string
  {
    if |ws| == 0 then [] else if |ws| == 1 then ws[0] else ws[0] + " " + JoinSpaced(ws[1..])
  }

  lemma {:induction false} SplitFromWord(w: string, rest: string, cur: string)
    requires NoSpace(w) && NoSpace(cur)
    ensures SplitFrom(w + rest, cur) == SplitFrom(rest, cur + w)
    decreases |w|
  {
    if w == [] {
      assert w + rest == rest && cur + w == cur;
    } else {
      assert (w + rest)[0] == w[0] && (w + rest)[1..] == w[1..] + rest;
      assert !IsSpace(w[0]);
      assert SplitFrom(w + rest, cur) == SplitFrom(w[1..] + rest, cur + [w[0]]);
      assert cur + [w[0]] + w[1..] == cur + w;
      SplitFromWord(w[1..], rest, cur + [w[0]]);
    }
  }

  /** Splitting words joined by single spaces gives back the words. */
  lemma {:induction false} SplitJoinSpaced(ws: seq<string>)
    requires forall k :: 0 <= k < |ws| ==> IsToken(ws[k])
    ensures Split(JoinSpaced(ws)) == ws
  {
    if |ws| == 1 {
      SplitFromWord(ws[0], [], []);
      assert ws[0] + [] == ws[0] && [] + ws[0] == ws[0];
    } else if |ws| > 1 {
      var tail := JoinSpaced(ws[1..]);
      assert JoinSpaced(ws) == ws[0] + (" " + tail);
      SplitFromWord(ws[0], " " + tail, []);
      assert [] + ws[0] == ws[0];
      assert (" " + tail)[0] == ' ' && (" " + tail)[1..] == tail;
      assert SplitFrom(" " + tail, ws[0]) == [ws[0]] + SplitFrom(tail, []);
      SplitJoinSpaced(ws[1..]);
      assert ws == [ws[0]] + ws[1..];
    }
  }

  lemma {:induction false} SplitFromTrailingSpace(s: string, c: char, cur: string)
    requires IsSpace(c) && NoSpace(cur)
    ensures SplitFrom(s + [c], cur) == SplitFrom(s, cur)
    decreases |s|
  {
    if s == [] {
      assert ([] + [c])[1..] == [];
    } else {
      assert (s + [c])[0] == s[0] && (s + [c])[1..] == s[1..] + [c];
      if IsSpace(s[0]) {
        SplitFromTrailingSpace(s[1..], c, []);
      } else {
        SplitFromTrailingSpace(s[1..], c, cur + [s[0]]);
      }
    }
  }

  lemma {:induction false} SplitStripRight(s: string)
    ensures SplitFrom(StripRight(s), []) == SplitFrom(s, [])
    decreases |s|
  {
    if s != [] && IsSpace(s[|s| - 1]) {
      assert s == s[..|s| - 1] + [s[|s| - 1]];
      SplitFromTrailingSpace(s[..|s| - 1], s[|s| - 1], []);
      SplitStripRight(s[..|s| - 1]);
    }
  }

  lemma {:induction false} SplitStripLeft(s: string)
    ensures SplitFrom(StripLeft(s), []) == SplitFrom(s, [])
    decreases |s|
  {
    if s != [] && IsSpace(s[0]) {
      SplitStripLeft(s[1..]);
    }
  }

  predicate AllSpace(g: string)
  {
    forall i :: 0 <= i < |g| ==> IsSpace(g[i])
  }

  /** Whitespace runs that can stand between and around n words: all
      whitespace, and non-empty wherever they separate two words. */
  predicate Separators(gaps: seq<string>, n: nat)
  {
    && |gaps| == n + 1
    && (forall k :: 0 <= k < |gaps| ==> AllSpace(gaps[k]))
    && (forall k :: 0 < k < n ==> |gaps[k]| > 0)
  }

  /** The words with the runs `gaps` woven around them:
      gaps[0] + ws[0] + gaps[1] + ... + ws[n-1] + gaps[n]. */
  function Weave(gaps: seq<string>, ws: seq<string>): string
    requires |gaps| == |ws| + 1
    decreases |ws|
  {
    if ws == [] then gaps[0] else gaps[0] + (ws[0] + Weave(gaps[1..], ws[1..]))
  }

  lemma {:induction false} SplitAfterSpaces(g: string, rest: string)
    requires AllSpace(g)
    ensures SplitFrom(g + rest, []) == SplitFrom(rest, [])
    decreases |g|
  {
    if g == [] {
      assert g + rest == rest;
    } else {
      assert (g + rest)[0] == g[0] && (g + rest)[1..] == g[1..] + rest;
      SplitAfterSpaces(g[1..], rest);
    }
  }

  lemma SplitSpacesAfterWord(g: string, rest: string, cur: string)
    requires AllSpace(g) && |g| > 0 && IsToken(cur)
    ensures SplitFrom(g + rest, cur) == [cur] + SplitFrom(rest, [])
  {
    assert (g + rest)[0] == g[0] && (g + rest)[1..] == g[1..] + rest;
    SplitAfterSpaces(g[1..], rest);
  }

  lemma {:induction false} SplitEndSpaces(g: string, cur: string)
    requires AllSpace(g) && NoSpace(cur)
    ensures SplitFrom(g, cur) == if cur == [] then [] else [cur]
    decreases |g|
  {
    if g != [] {
      SplitEndSpaces(g[1..], []);
    }
  }

  /** Splitting words woven with whitespace runs gives back the words. */
  lemma {:induction false} SplitWeave(gaps: seq<string>, ws: seq<string>)
    requires Separators(gaps, |ws|) && Words(ws)
    ensures Split(Weave(gaps, ws)) == ws
    decreases |ws|
  {
    if ws == [] {
      SplitEndSpaces(gaps[0], []);
    } else {
      var tail := Weave(gaps[1..], ws[1..]);
      SplitAfterSpaces(gaps[0], ws[0] + tail);
      SplitFromWord(ws[0], tail, []);
      assert [] + ws[0] == ws[0];
      if |ws| == 1 {
        assert tail == gaps[1];
        SplitEndSpaces(gaps[1], ws[0]);
      } else {
        var body := ws[1] + Weave(gaps[2..], ws[2..]);
        assert gaps[1..][1..] == gaps[2..] && ws[1..][1..] == ws[2..];
        assert tail == gaps[1] + body;
        SplitSpacesAfterWord(gaps[1], body, ws[0]);
        SplitAfterSpaces(gaps[1], body);
        assert Separators(gaps[1..], |ws[1..]|);
        SplitWeave(gaps[1..], ws[1..]);
        assert ws == [ws[0]] + ws[1..];
      }
    }
  }

  /** Words `split()` can produce. */
  predicate Words(ws: seq<string>)
  {
    forall k :: 0 <= k < |ws| ==> IsToken(ws[k])
  }

  /** A decomposition of `s` into whitespace runs and words. */
  ghost function Decompose(s: string): (d: (seq<string>, seq<string>))
    ensures Separators(d.0, |d.1|) && Words(d.1) && Weave(d.0, d.1) == s
    decreases |s|
  {
    if s == [] then ([[]], [])
    else
      var (g, w) := Decompose(s[1..]);
      assert s == [s[0]] + s[1..];
      if IsSpace(s[0]) then
        WeaveGrowGap(s[0], g, w);
        SeparatorsGrowGap(s[0], g, |w|);
        ([[s[0]] + g[0]] + g[1..], w)
      else if g[0] == [] && w != [] then
        WeaveGrowWord(s[0], g, w);
        WordsGrow(s[0], w);
        (g, [[s[0]] + w[0]] + w[1..])
      else
        WeaveNewWord(s[0], g, w);
        ([[]] + g, [[s[0]]] + w)
  }

  /** A leading whitespace character joins the first run. */
  lemma WeaveGrowGap(ch: char, g: seq<string>, w: seq<string>)
    requires |g| == |w| + 1
    ensures Weave([[ch] + g[0]] + g[1..], w) == [ch] + Weave(g, w)
  {
    var g' := [[ch] + g[0]] + g[1..];
    assert g'[0] == [ch] + g[0] && g'[1..] == g[1..];
    if w != [] {
      var body := w[0] + Weave(g[1..], w[1..]);
      ConcatAssoc([ch], g[0], body);
    }
  }

  lemma SeparatorsGrowGap(ch: char, g: seq<string>, n: nat)
    requires IsSpace(ch) && Separators(g, n)
    ensures Separators([[ch] + g[0]] + g[1..], n)
  {
    var g' := [[ch] + g[0]] + g[1..];
    forall k | 0 <= k < |g'| ensures AllSpace(g'[k]) {
      if k > 0 {
        assert g'[k] == g[k];
      }
    }
  }

  /** A leading non-whitespace character joins a first word that nothing
      precedes. */
  lemma WeaveGrowWord(ch: char, g: seq<string>, w: seq<string>)
    requires |g| == |w| + 1 && g[0] == [] && w != []
    ensures Weave(g, [[ch] + w[0]] + w[1..]) == [ch] + Weave(g, w)
  {
    var w' := [[ch] + w[0]] + w[1..];
    assert w'[0] == [ch] + w[0] && w'[1..] == w[1..];
    var tail := Weave(g[1..], w[1..]);
    EmptyPrefix(([ch] + w[0]) + tail);
    EmptyPrefix(w[0] + tail);
    ConcatAssoc([ch], w[0], tail);
  }

  lemma EmptyPrefix(x: string)
    ensures [] + x == x
  {
  }

  lemma ConcatAssoc(a: string, b: string, c: string)
    ensures a + (b + c) == (a + b) + c
  {
  }

  lemma WordsGrow(ch: char, w: seq<string>)
    requires !IsSpace(ch) && Words(w) && w != []
    ensures Words([[ch] + w[0]] + w[1..])
  {
    var w' := [[ch] + w[0]] + w[1..];
    TokenGrows(ch, w[0]);
    forall k | 0 < k < |w'| ensures IsToken(w'[k]) {
      assert w'[k] == w[k];
    }
  }

  lemma TokenGrows(ch: char, t: string)
    requires !IsSpace(ch) && IsToken(t)
    ensures IsToken([ch] + t)
  {
    forall i | 0 <= i < |[ch] + t| ensures !IsSpace(([ch] + t)[i]) {
      if i > 0 {
        assert ([ch] + t)[i] == t[i - 1];
      }
    }
  }

  /** Otherwise a leading non-whitespace character starts a new word, before
      a non-empty run or before no word at all. */
  lemma WeaveNewWord(ch: char, g: seq<string>, w: seq<string>)
    requires !IsSpace(ch) && Separators(g, |w|) && Words(w) && (g[0] != [] || w == [])
    ensures Separators([[]] + g, |w| + 1) && Words([[ch]] + w)
    ensures Weave([[]] + g, [[ch]] + w) == [ch] + Weave(g, w)
  {
    var g', w' := [[]] + g, [[ch]] + w;
    assert g'[1..] == g && w'[1..] == w;
    forall k | 0 <= k < |g'| ensures AllSpace(g'[k]) {
      if k > 0 {
        assert g'[k] == g[k - 1];
      }
    }
    forall k | 0 < k < |w| + 1 ensures |g'[k]| > 0 {
      assert g'[k] == g[k - 1];
    }
    forall k | 0 <= k < |w'| ensures IsToken(w'[k]) {
      if k > 0 {
        assert w'[k] == w[k - 1];
      }
    }
  }

  /** The input is the words of `split()` woven with whitespace runs that are
      non-empty between two words: the words are its maximal runs of
      non-whitespace characters. */
  lemma SplitIsWeave(s: string)
    ensures exists gaps :: Separators(gaps, |Split(s)|) && Weave(gaps, Split(s)) == s
  {
    var (g, w) := Decompose(s);
    SplitWeave(g, w);
    assert Weave(g, Split(s)) == s;
  }

  /** `strip()` before `split()` changes nothing. */
  lemma SplitIgnoresStrip(s: string)
    ensures Split(Strip(s)) == Split(s)
  {
    SplitStripRight(StripLeft(s));
    SplitStripLeft(s);
  }

  predicate IsBinaryDigits(w: string)
  {
    forall i :: 0 <= i < |w| ==> w[i] == '0' || w[i] == '1'
  }

  /** The number written in binary by the digits of `w`, most significant
      first. */
  function BitsValue(w: string): nat
  {
    if w == [] then 0 else 2 * BitsValue(w[..|w| - 1]) + (if w[|w| - 1] == '1' then 1 else 0)
  }

  lemma {:induction false} BitsValueBound(w: string)
    ensures BitsValue(w) < Pow2(|w|)
  {
    if w != [] {
      BitsValueBound(w[..|w| - 1]);
    }
  }

  /** `int(w, 2)`, `None` where Python raises `ValueError`: for the empty
      string and for any character other than 0 and 1. */
  function ParseBinary(w: string): (r: Option<nat>)
    ensures r.Some? <==> |w| > 0 && IsBinaryDigits(w)
    ensures r.Some? ==> r.value < Pow2(|w|)
  {
    if |w| > 0 && IsBinaryDigits(w) then
      BitsValueBound(w);
      Some(BitsValue(w))
    else None
  }

  lemma {:induction false} LeadingZero(w: string)
    ensures BitsValue("0" + w) == BitsValue(w)
    decreases |w|
  {
    if w != [] {
      var v := "0" + w;
      assert v[..|v| - 1] == "0" + w[..|w| - 1];
      assert v[|v| - 1] == w[|w| - 1];
      LeadingZero(w[..|w| - 1]);
    }
  }

  lemma BinaryDigitsAfterZero(x: string)
    ensures IsBinaryDigits("0" + x) <==> IsBinaryDigits(x)
  {
    if IsBinaryDigits("0" + x) {
      forall i | 0 <= i < |x| ensures x[i] == '0' || x[i] == '1' {
        assert x[i] == ("0" + x)[i + 1];
      }
    }
  }

  /** Leading zeros do not change the number a token denotes. */
  lemma {:induction false} LeadingZeros(zeros: string, w: string)
    requires forall i :: 0 <= i < |zeros| ==> zeros[i] == '0'
    requires |w| > 0
    ensures ParseBinary(zeros + w) == ParseBinary(w)
    decreases |zeros|
  {
    if zeros == [] {
      assert zeros + w == w;
    } else {
      var x := zeros[1..] + w;
      LeadingZeros(zeros[1..], w);
      assert zeros + w == "0" + x;
      LeadingZero(x);
      BinaryDigitsAfterZero(x);
    }
  }

  /** The low n bits of v as n binary digits, as the format `{v:0nb}` writes
      a value below 2^n. */
  function ToBinary(v: nat, n: nat): (w: string)
    ensures |w| == n && IsBinaryDigits(w)
  {
    if n == 0 then [] else ToBinary(v / 2, n - 1) + [if v % 2 == 1 then '1' else '0']
  }

  /** Parsing n binary digits of v gives v modulo 2^n. */
  lemma {:induction false} ParseToBinary(v: nat, n: nat)
    requires n > 0
    ensures ParseBinary(ToBinary(v, n)) == Some(v % Pow2(n))
  {
    BitsOfToBinary(v, n);
  }

  lemma {:induction false} BitsOfToBinary(v: nat, n: nat)
    ensures BitsValue(ToBinary(v, n)) == v % Pow2(n)
  {
    if n > 0 {
      var w := ToBinary(v, n);
      assert w[..|w| - 1] == ToBinary(v / 2, n - 1);
      BitsOfToBinary(v / 2, n - 1);
      ModDouble(v, n - 1);
    }
  }

  /** Formatting what `int(w, 2)` parses with |w| digits gives w back: with
      ParseToBinary, parsing and formatting are inverse. */
  lemma ToBinaryOfParse(w: string)
    requires ParseBinary(w).Some?
    ensures ToBinary(ParseBinary(w).value, |w|) == w
  {
    ToBinaryOfValue(w);
  }

  /** Writing the value of binary digits with as many digits gives the
      digits back. */
  lemma {:induction false} ToBinaryOfValue(w: string)
    requires IsBinaryDigits(w)
    ensures ToBinary(BitsValue(w), |w|) == w
    decreases |w|
  {
    if w != [] {
      var u := w[..|w| - 1];
      assert IsBinaryDigits(u) by {
        forall i | 0 <= i < |u| ensures u[i] == '0' || u[i] == '1' {
          assert u[i] == w[i];
        }
      }
      ToBinaryOfValue(u);
      var v := BitsValue(w);
      assert v / 2 == BitsValue(u) && v % 2 == (if w[|w| - 1] == '1' then 1 else 0);
      assert w == u + [w[|w| - 1]];
    }
  }
}
