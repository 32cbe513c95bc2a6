/**
 * The JavaScript string operations the core relies on: `trim`, `split(/\s+/)`
 * followed by `filter(Boolean)`, `includes`, `toLowerCase`, and the decimal
 * rendering of an integer inside a template literal.
 */
module Text {

  /** The characters `String.prototype.trim` strips and the regex class `\s` matches:
      the WhiteSpace and LineTerminator characters of ECMAScript. */
  predicate IsSpace(c: char) {
    c in SpaceChars || '\U{2000}' <= c <= '\U{200A}'
  }

  const SpaceChars: set<char> := {
    '\t', '\n', '\U{000B}', '\U{000C}', '\r', ' ', '\U{00A0}', '\U{1680}',
    '\U{2028}', '\U{2029}', '\U{202F}', '\U{205F}', '\U{3000}', '\U{FEFF}'
  }

  ghost predicate AllSpace(s: string) {
    forall i | 0 <= i < |s| :: IsSpace(s[i])
  }

  ghost predicate NoSpace(s: string) {
    forall i | 0 <= i < |s| :: !IsSpace(s[i])
  }

  /** Neither end of `s` is whitespace: what `trim` leaves. */
  ghost predicate Trimmed(s: string) {
    s == [] || (!IsSpace(s[0]) && !IsSpace(s[|s| - 1]))
  }

  /** `s` without its leading whitespace: a suffix of `s` that is empty or starts with
      a non-whitespace character. */
  function TrimStart(s: string): (r: string)
    ensures |r| <= |s|
    ensures r == [] || !IsSpace(r[0])
  {
    if s != [] && IsSpace(s[0]) then TrimStart(s[1..]) else s
  }

  lemma {:induction false} TrimStartIsSuffix(s: string)
    ensures TrimStart(s) == s[|s| - |TrimStart(s)|..]
  {
    if s != [] && IsSpace(s[0]) {
      TrimStartIsSuffix(s[1..]);
    }
  }

  /** What `TrimStart` drops is whitespace. */
  lemma {:induction false} TrimStartDropsSpaces(s: string)
    ensures AllSpace(s[..|s| - |TrimStart(s)|])
  {
    if s != [] && IsSpace(s[0]) {
      TrimStartDropsSpaces(s[1..]);
      var n := |s| - |TrimStart(s)|;
      assert forall k | 1 <= k < n :: s[..n][k] == s[1..][..n - 1][k - 1];
    }
  }

  /** `s` without its trailing whitespace: a prefix of `s` that is empty or ends with
      a non-whitespace character. */
  function TrimEnd(s: string): (r: string)
    ensures |r| <= |s|
    ensures r == [] || !IsSpace(r[|r| - 1])
  {
    if s != [] && IsSpace(s[|s| - 1]) then TrimEnd(s[..|s| - 1]) else s
  }

  lemma {:induction false} TrimEndIsPrefix(s: string)
    ensures TrimEnd(s) == s[..|TrimEnd(s)|]
  {
    if s != [] && IsSpace(s[|s| - 1]) {
      TrimEndIsPrefix(s[..|s| - 1]);
    }
  }

  /** What `TrimEnd` drops is whitespace. */
  lemma {:induction false} TrimEndDropsSpaces(s: string)
    ensures AllSpace(s[|TrimEnd(s)|..])
  {
    if s != [] && IsSpace(s[|s| - 1]) {
      TrimEndDropsSpaces(s[..|s| - 1]);
      var r := TrimEnd(s);
      assert s[|r|..] == s[..|s| - 1][|r|..] + [s[|s| - 1]];
    }
  }

  /** `s.trim()`: neither end of the result is whitespace, and a string already in that
      form is returned unchanged. */
  function Trim(s: string): (r: string)
    ensures |r| <= |s|
    ensures Trimmed(r)
    ensures Trimmed(s) ==> r == s
  {
    var t := TrimStart(s);
    var r := TrimEnd(t);
    TrimEndIsPrefix(t);
    assert r != [] ==> r[0] == t[0];
    assert Trimmed(s) && s != [] ==> t == s;
    r
  }

  /** The trimmed string is the slice of `s` between a whitespace prefix and a whitespace
      suffix. */
  lemma TrimIsSlice(s: string)
    ensures var r := Trim(s); var i := |s| - |TrimStart(s)|;
      && 0 <= i <= |s| - |r| && r == s[i..i + |r|] && AllSpace(s[..i]) && AllSpace(s[i + |r|..])
  {
    var t := TrimStart(s);
    var r := TrimEnd(t);
    var i := |s| - |t|;
    TrimStartDropsSpaces(s);
    TrimEndDropsSpaces(t);
    TrimStartIsSuffix(s);
    TrimEndIsPrefix(t);
    assert t == s[i..];
    assert r == s[i..i + |r|];
    assert t[|r|..] == s[i + |r|..];
  }

  /** Trimming leaves nothing exactly when `s` is all whitespace. */
  lemma TrimEmptyIffSpaces(s: string)
    ensures Trim(s) == [] <==> AllSpace(s)
  {
    TrimIsSlice(s);
    TrimStartIsSuffix(s);
    var t := TrimStart(s);
    var i := |s| - |t|;
    if Trim(s) == [] {
      assert s[i..] == t;
      assert AllSpace(t);
      assert t == [];
      assert s[..|s|] == s;
    } else {
      assert s[i] == Trim(s)[0];
    }
  }

  /** Trimming a second time changes nothing. */
  lemma TrimIdempotent(s: string)
    ensures Trim(Trim(s)) == Trim(s)
  {
  }

  /** The longest prefix of `s` that holds no whitespace. */
  function WordPrefix(s: string): (w: string)
    ensures w <= s && NoSpace(w)
    ensures |w| < |s| ==> IsSpace(s[|w|])
  {
    if s == [] || IsSpace(s[0]) then [] else [s[0]] + WordPrefix(s[1..])
  }

  /** A non-empty run of non-whitespace characters. */
  ghost predicate IsWord(w: string) {
    w != [] && NoSpace(w)
  }

  /** `s.split(/\s+/).filter(Boolean)`: the maximal runs of non-whitespace characters of `s`, in order. */
  function Words(s: string): (ws: seq<string>)
    ensures forall k | 0 <= k < |ws| :: IsWord(ws[k])
    decreases |s|
  {
    if s == [] then []
    else if IsSpace(s[0]) then Words(s[1..])
    else
      var w := WordPrefix(s);
      assert w == [s[0]] + WordPrefix(s[1..]);
      [w] + Words(s[|w|..])
  }

  /** Only a text made of whitespace alone has no words. */
  lemma {:induction false} NoWordsIffSpaces(s: string)
    ensures Words(s) == [] <==> AllSpace(s)
    decreases |s|
  {
    if s != [] {
      NoWordsIffSpaces(s[1..]);
      assert forall k | 1 <= k < |s| :: s[k] == s[1..][k - 1];
    }
  }

  /** The word count the evaluators compare against their thresholds. */
  function WordCount(s: string): nat {
    |Words(s)|
  }

  /** An independent reading of the word count: the number of positions where a
      non-whitespace character starts the text or follows a whitespace character. */
  function WordStarts(s: string, afterSpace: bool): nat {
    if s == [] then 0
    else (if afterSpace && !IsSpace(s[0]) then 1 else 0) + WordStarts(s[1..], IsSpace(s[0]))
  }

  lemma {:induction false} WordStartsOfSpaces(s: string, afterSpace: bool)
    requires AllSpace(s)
    ensures WordStarts(s, afterSpace) == 0
    decreases |s|
  {
    if s != [] {
      WordStartsOfSpaces(s[1..], true);
    }
  }

  lemma {:induction false} WordStartsSkipWord(u: string, v: string)
    requires NoSpace(u)
    ensures WordStarts(u + v, false) == WordStarts(v, false)
    decreases |u|
  {
    if u != [] {
      assert (u + v)[0] == u[0] && !IsSpace(u[0]);
      assert (u + v)[1..] == u[1..] + v;
      assert NoSpace(u[1..]) by {
        forall i | 0 <= i < |u[1..]| ensures !IsSpace(u[1..][i]) {
          assert u[1..][i] == u[i + 1];
        }
      }
      assert WordStarts(u + v, false) == WordStarts(u[1..] + v, false);
      WordStartsSkipWord(u[1..], v);
    } else {
      assert u + v == v;
    }
  }

  /** The word count equals the number of word starts. */
  lemma {:induction false} WordCountIsWordStarts(s: string)
    ensures WordCount(s) == WordStarts(s, true)
    decreases |s|
  {
    if s == [] {
    } else if IsSpace(s[0]) {
      WordCountIsWordStarts(s[1..]);
    } else {
      var w := WordPrefix(s);
      var v := s[|w|..];
      WordCountIsWordStarts(v);
      assert s == w + v;
      assert s[1..] == w[1..] + v;
      WordStartsSkipWord(w[1..], v);
      if v != [] {
        assert WordStarts(v, false) == WordStarts(v[1..], true) == WordStarts(v, true);
      }
    }
  }

  /** `p` occurs in `text` starting at position `i`. */
  ghost predicate OccursAt(text: string, p: string, i: int) {
    0 <= i <= |text| - |p| && text[i..i + |p|] == p
  }

  /** An occurrence in a non-empty text is a prefix or an occurrence in its tail, one
      position further on. */
  lemma OccursAtStep(text: string, p: string, i: int)
    requires text != []
    ensures OccursAt(text, p, i) <==> (i == 0 && p <= text) || (i >= 1 && OccursAt(text[1..], p, i - 1))
  {
    if i >= 1 && i <= |text| - |p| {
      var here, there := text[i..i + |p|], text[1..][i - 1..i - 1 + |p|];
      forall k | 0 <= k < |p| ensures here[k] == there[k] {
        assert here[k] == text[i + k];
      }
      assert here == there;
    }
  }

  /** `text.includes(p)`. */
  function Contains(text: string, p: string): (found: bool)
    ensures found <==> exists i :: OccursAt(text, p, i)
    decreases |text|
  {
    if p <= text then
      assert OccursAt(text, p, 0);
      true
    else if text == [] then
      assert forall i :: !OccursAt(text, p, i);
      false
    else
      var rest := Contains(text[1..], p);
      assert rest ==> exists i :: OccursAt(text, p, i) by {
        if rest {
          var j :| OccursAt(text[1..], p, j);
          OccursAtStep(text, p, j + 1);
        }
      }
      assert !rest ==> forall i :: !OccursAt(text, p, i) by {
        if !rest {
          forall i ensures !OccursAt(text, p, i) {
            OccursAtStep(text, p, i);
          }
        }
      }
      rest
  }

  /** `phrases.some(p => text.includes(p))`. */
  function ContainsAny(text: string, phrases: seq<string>): (found: bool)
    ensures found <==> exists k | 0 <= k < |phrases| :: Contains(text, phrases[k])
  {
    if phrases == [] then false
    else Contains(text, phrases[0]) || ContainsAny(text, phrases[1..])
  }

  /** `toLowerCase` on one character, for the ASCII letters. */
  function LowerChar(c: char): char {
    if 'A' <= c <= 'Z' then (c as int + 32) as char else c
  }

  /** `s.toLowerCase()`, restricted to ASCII letters. */
  function ToLower(s: string): (r: string)
    ensures |r| == |s|
  {
    seq(|s|, i requires 0 <= i < |s| => LowerChar(s[i]))
  }

  /** Lower-casing leaves no upper-case ASCII letter, keeps every other character where it
      was, and changes nothing a second time. */
  lemma ToLowerLowers(s: string)
    ensures forall i | 0 <= i < |s| :: !('A' <= ToLower(s)[i] <= 'Z')
    ensures forall i | 0 <= i < |s| :: !('A' <= s[i] <= 'Z') ==> ToLower(s)[i] == s[i]
    ensures ToLower(ToLower(s)) == ToLower(s)
  {
  }

  /** Lower-casing maps whitespace to whitespace and nothing else to whitespace. */
  lemma LowerCharKeepsSpace(c: char)
    ensures IsSpace(LowerChar(c)) <==> IsSpace(c)
  {
    if 'A' <= c <= 'Z' {
      assert 'a' <= LowerChar(c) <= 'z';
    }
  }

  lemma {:induction false} TrimStartToLower(s: string)
    ensures TrimStart(ToLower(s)) == ToLower(TrimStart(s))
  {
    if s != [] {
      LowerCharKeepsSpace(s[0]);
      if IsSpace(s[0]) {
        assert ToLower(s)[1..] == ToLower(s[1..]);
        TrimStartToLower(s[1..]);
      }
    }
  }

  lemma {:induction false} TrimEndToLower(s: string)
    ensures TrimEnd(ToLower(s)) == ToLower(TrimEnd(s))
  {
    if s != [] {
      LowerCharKeepsSpace(s[|s| - 1]);
      if IsSpace(s[|s| - 1]) {
        assert ToLower(s)[..|s| - 1] == ToLower(s[..|s| - 1]);
        TrimEndToLower(s[..|s| - 1]);
      }
    }
  }

  /** Trimming and lower-casing can be done in either order. */
  lemma TrimToLower(s: string)
    ensures ToLower(Trim(s)) == Trim(ToLower(s))
  {
    TrimStartToLower(s);
    TrimEndToLower(TrimStart(s));
  }

  lemma {:induction false} OccursAfterTrimStart(s: string, p: string, o: int)
    requires OccursAt(s, p, o) && p != [] && !IsSpace(p[0])
    ensures OccursAt(TrimStart(s), p, o - (|s| - |TrimStart(s)|))
  {
    assert s[o] == s[o..o + |p|][0];
    if s != [] && IsSpace(s[0]) {
      assert s[1..][o - 1..o - 1 + |p|] == s[o..o + |p|];
      OccursAfterTrimStart(s[1..], p, o - 1);
    }
  }

  lemma {:induction false} OccursAfterTrimEnd(s: string, p: string, o: int)
    requires OccursAt(s, p, o) && p != [] && !IsSpace(p[|p| - 1])
    ensures OccursAt(TrimEnd(s), p, o)
  {
    assert s[o + |p| - 1] == s[o..o + |p|][|p| - 1];
    if s != [] && IsSpace(s[|s| - 1]) {
      assert s[..|s| - 1][o..o + |p|] == s[o..o + |p|];
      OccursAfterTrimEnd(s[..|s| - 1], p, o);
    }
  }

  /** A phrase that neither starts nor ends with whitespace, found in `s`, is still found
      once `s` is trimmed. */
  lemma ContainsSurvivesTrim(s: string, p: string)
    requires p != [] && Trimmed(p) && Contains(s, p)
    ensures Contains(Trim(s), p)
  {
    var o :| OccursAt(s, p, o);
    var t := TrimStart(s);
    OccursAfterTrimStart(s, p, o);
    OccursAfterTrimEnd(t, p, o - (|s| - |t|));
  }

  /** A phrase of a list, found in the lower-cased text in any letter case, is still
      found once the text is trimmed and lower-cased, as the evaluators test it. */
  lemma ContainsAnySurvivesTrim(s: string, phrases: seq<string>, k: nat)
    requires k < |phrases| && phrases[k] != [] && Trimmed(phrases[k])
    requires Contains(ToLower(s), phrases[k])
    ensures ContainsAny(ToLower(Trim(s)), phrases)
  {
    ContainsSurvivesTrim(ToLower(s), phrases[k]);
    TrimToLower(s);
    assert Contains(ToLower(Trim(s)), phrases[k]);
  }

  predicate IsDigit(c: char) {
    '0' <= c <= '9'
  }

  function DigitChar(d: nat): (c: char)
    requires d < 10
    ensures IsDigit(c) && c as int - '0' as int == d
  {
    ('0' as int + d) as char
  }

  /** The decimal rendering of `n`, as a template literal prints it. */
  function NatToString(n: nat): (s: string)
    ensures s != [] && forall i | 0 <= i < |s| :: IsDigit(s[i])
    ensures |s| > 1 ==> s[0] != '0'
  {
    if n < 10 then [DigitChar(n)] else NatToString(n / 10) + [DigitChar(n % 10)]
  }

  /** The number a string of decimal digits denotes. */
  function DigitsValue(s: string): int
    requires forall i | 0 <= i < |s| :: IsDigit(s[i])
  {
    if s == [] then 0 else DigitsValue(s[..|s| - 1]) * 10 + (s[|s| - 1] as int - '0' as int)
  }

  /** Reading back the rendering of `n` gives `n`. */
  lemma {:induction false} NatToStringRoundTrip(n: nat)
    ensures DigitsValue(NatToString(n)) == n
  {
    if n >= 10 {
      var s := NatToString(n);
      assert s[..|s| - 1] == NatToString(n / 10);
      NatToStringRoundTrip(n / 10);
    }
  }

  /** Distinct numbers render differently. */
  lemma NatToStringInjective(m: nat, n: nat)
    requires NatToString(m) == NatToString(n)
    ensures m == n
  {
    NatToStringRoundTrip(m);
    NatToStringRoundTrip(n);
  }

  /** `${n}` for an integer `n`. */
  function IntToString(n: int): string {
    if n < 0 then "-" + NatToString(-n) else NatToString(n)
  }
}
