/**
 * The string primitives both stages of the pipeline are built from:
 * str.strip(), str.split('\t'), int(), str.lower() and the word pattern
 * \b\w+\b.  Only the ASCII part of each is modelled (see README).
 */
module Text {
  import opened Wrappers

  // ------------------------------------------------------------------ strip

  /** The characters str.strip() removes (its ASCII members). */
  predicate IsSpace(c: char) {
    c == ' ' || ('\t' <= c <= '\r') || ('\U{1C}' <= c <= '\U{1F}')
  }

  predicate AllSpace(s: string) {
    forall i :: 0 <= i < |s| ==> IsSpace(s[i])
  }

  /** Neither end of s is whitespace, which is what str.strip() leaves. */
  predicate Trimmed(s: string) {
    s == [] || (!IsSpace(s[0]) && !IsSpace(s[|s| - 1]))
  }

  function TrimStart(s: string): (r: string)
    ensures |r| <= |s| && r == s[|s| - |r|..]
    ensures AllSpace(s[..|s| - |r|])
    ensures r == [] || !IsSpace(r[0])
    ensures AllSpace(s) ==> r == []
  {
    if s != [] && IsSpace(s[0]) then
      var r := TrimStart(s[1..]);
      assert s[..|s| - |r|] == [s[0]] + s[1..][..|s| - 1 - |r|];
      r
    else s
  }

  function TrimEnd(s: string): (r: string)
    ensures |r| <= |s| && r == s[..|r|]
    ensures AllSpace(s[|r|..])
    ensures r == [] || !IsSpace(r[|r| - 1])
    ensures s != [] && !IsSpace(s[0]) ==> r != []
  {
    if s != [] && IsSpace(s[|s| - 1]) then
      var r := TrimEnd(s[..|s| - 1]);
      assert s[|r|..] == s[..|s| - 1][|r|..] + [s[|s| - 1]];
      r
    else s
  }

  /** str.strip(): the line without its leading and trailing whitespace. */
  function Strip(s: string): (r: string)
    ensures Trimmed(r) && |r| <= |s|
    ensures r == [] <==> AllSpace(s)
  {
    var t := TrimStart(s);
    var r := TrimEnd(t);
    assert t == [] ==> s[..|s|] == s;
    assert r != [] ==> r[0] == t[0];
    r
  }

  /** A line without surrounding whitespace is its own stripped form. */
  lemma StripTrimmed(s: string)
    requires Trimmed(s)
    ensures Strip(s) == s
  {
    StripPadded([], s, []);
    assert [] + s + [] == s;
  }

  /** Every line is its stripped form padded with whitespace on both sides. */
  lemma StripParts(s: string) returns (before: string, after: string)
    ensures AllSpace(before) && AllSpace(after)
    ensures s == before + Strip(s) + after
  {
    var t := TrimStart(s);
    var r := TrimEnd(t);
    before := s[..|s| - |t|];
    after := t[|r|..];
    assert Strip(s) == r;
    TrimStartParts(s);
    TrimEndParts(t);
    AppendAssociative(before, r, after);
  }

  /** Stated on its own so that the proof of StripParts stays small. */
  lemma AppendAssociative(a: string, b: string, c: string)
    ensures a + b + c == a + (b + c)
  {
  }

  lemma TrimStartParts(s: string)
    ensures s == s[..|s| - |TrimStart(s)|] + TrimStart(s)
  {
    var t := TrimStart(s);
    assert s == s[..|s| - |t|] + s[|s| - |t|..];
  }

  lemma TrimEndParts(t: string)
    ensures t == TrimEnd(t) + t[|TrimEnd(t)|..]
  {
    var r := TrimEnd(t);
    assert t == t[..|r|] + t[|r|..];
  }

  lemma {:induction false} TrimStartSkips(pad: string, t: string)
    requires AllSpace(pad)
    requires t == [] || !IsSpace(t[0])
    ensures TrimStart(pad + t) == t
  {
    if pad != [] {
      assert (pad + t)[1..] == pad[1..] + t;
      TrimStartSkips(pad[1..], t);
    }
  }

  lemma {:induction false} TrimEndSkips(t: string, pad: string)
    requires AllSpace(pad)
    requires t == [] || !IsSpace(t[|t| - 1])
    ensures TrimEnd(t + pad) == t
  {
    if pad != [] {
      assert (t + pad)[..|t + pad| - 1] == t + pad[..|pad| - 1];
      TrimEndSkips(t, pad[..|pad| - 1]);
    } else {
      assert t + pad == t;
    }
  }

  /** Strip removes exactly the whitespace padding around a trimmed text. */
  lemma StripPadded(before: string, s: string, after: string)
    requires AllSpace(before) && AllSpace(after) && Trimmed(s)
    ensures Strip(before + s + after) == s
  {
    if s == [] {
      assert before + s + after == before + after;
      TrimStartSkips(before + after, []);
      assert before + after == (before + after) + [];
    } else {
      assert before + s + after == before + (s + after);
      TrimStartSkips(before, s + after);
      TrimEndSkips(s, after);
    }
  }

  // ------------------------------------------------------------------ split

  /** str.split(sep): the text between separators; always at least one field. */
  function Split(s: string, sep: char): (fields: seq<string>)
    ensures |fields| >= 1
    ensures forall i :: 0 <= i < |fields| ==> sep !in fields[i]
  {
    if s == [] then [[]]
    else
      var rest := Split(s[1..], sep);
      if s[0] == sep then [[]] + rest
      else [[s[0]] + rest[0]] + rest[1..]
  }

  /** sep.join(fields). */
  function Join(fields: seq<string>, sep: char): string
    requires |fields| >= 1
  {
    if |fields| == 1 then fields[0] else fields[0] + [sep] + Join(fields[1..], sep)
  }

  /** Joining the fields of a split gives the original text back. */
  lemma {:induction false} JoinSplit(s: string, sep: char)
    ensures Join(Split(s, sep), sep) == s
  {
    if s != [] {
      var rest := Split(s[1..], sep);
      var fields := Split(s, sep);
      JoinSplit(s[1..], sep);
      assert s == [s[0]] + s[1..];
      if s[0] == sep {
        assert fields[1..] == rest;
      } else if |rest| == 1 {
        assert fields == [[s[0]] + rest[0]];
      } else {
        assert fields[1..] == rest[1..];
        assert Join(fields, sep) == [s[0]] + (rest[0] + [sep] + Join(rest[1..], sep));
      }
    }
  }

  lemma {:induction false} SplitPrefix(w: string, t: string, sep: char)
    requires sep !in w
    ensures Split(w + t, sep) == [w + Split(t, sep)[0]] + Split(t, sep)[1..]
  {
    if w != [] {
      assert (w + t)[1..] == w[1..] + t;
      SplitPrefix(w[1..], t, sep);
      assert [w[0]] + (w[1..] + Split(t, sep)[0]) == w + Split(t, sep)[0];
    } else {
      var f := Split(t, sep);
      assert w + t == t;
      assert w + f[0] == f[0];
      assert f == [f[0]] + f[1..];
    }
  }

  /** Splitting the join of separator-free fields gives the fields back. */
  lemma {:induction false} SplitJoin(fields: seq<string>, sep: char)
    requires |fields| >= 1
    requires forall i :: 0 <= i < |fields| ==> sep !in fields[i]
    ensures Split(Join(fields, sep), sep) == fields
  {
    if |fields| == 1 {
      SplitPrefix(fields[0], [], sep);
      assert Split([], sep) == [[]];
      assert fields[0] + [] == fields[0];
      assert fields == [fields[0]];
    } else {
      var tail := Join(fields[1..], sep);
      SplitJoin(fields[1..], sep);
      assert Join(fields, sep) == fields[0] + ([sep] + tail);
      SplitPrefix(fields[0], [sep] + tail, sep);
      assert ([sep] + tail)[1..] == tail;
      assert Split([sep] + tail, sep) == [[]] + fields[1..];
      assert fields[0] + [] == fields[0];
      assert fields == [fields[0]] + fields[1..];
    }
  }

  // ---------------------------------------------------------------- integers

  predicate IsDigit(c: char) {
    '0' <= c <= '9'
  }

  predicate AllDigits(s: string) {
    forall i :: 0 <= i < |s| ==> IsDigit(s[i])
  }

  /** The value of a run of decimal digits, most significant first. */
  function DigitsValue(s: string): nat
    requires AllDigits(s)
  {
    if s == [] then 0 else 10 * DigitsValue(s[..|s| - 1]) + (s[|s| - 1] as int - '0' as int)
  }

  /** A decimal integer literal: an optional sign followed by at least one digit. */
  predicate IsIntLiteral(s: string) {
    var digits := if s != [] && (s[0] == '-' || s[0] == '+') then s[1..] else s;
    digits != [] && AllDigits(digits)
  }

  /** int(field): the value of a signed decimal literal, or failure. */
  function ParseInt(s: string): (r: Option<int>)
    ensures r.Some? <==> IsIntLiteral(s)
    ensures r.Some? && s[0] == '-' ==> r.value <= 0
    ensures r.Some? && s[0] != '-' ==> r.value >= 0
  {
    if s != [] && (s[0] == '-' || s[0] == '+') then
      var digits := s[1..];
      if digits != [] && AllDigits(digits) then
        var magnitude: int := DigitsValue(digits);
        Some(if s[0] == '-' then -magnitude else magnitude)
      else None
    else if s != [] && AllDigits(s) then Some(DigitsValue(s))
    else None
  }

  function DigitChar(d: nat): char
    requires d < 10
  {
    ('0' as int + d) as char
  }

  /** str(n) for a natural number. */
  function ShowNat(n: nat): (s: string)
    ensures s != [] && AllDigits(s)
  {
    if n < 10 then [DigitChar(n)] else ShowNat(n / 10) + [DigitChar(n % 10)]
  }

  /** str(n): the decimal form of an integer, with '-' for negatives. */
  function ShowInt(n: int): string {
    if n < 0 then "-" + ShowNat(-n) else ShowNat(n)
  }

  lemma {:induction false} DigitsValueOfShow(n: nat)
    ensures DigitsValue(ShowNat(n)) == n
  {
    if n >= 10 {
      var s := ShowNat(n);
      assert s[..|s| - 1] == ShowNat(n / 10);
      DigitsValueOfShow(n / 10);
    }
  }

  /** int(str(n)) == n. */
  lemma ParseShowInt(n: int)
    ensures ParseInt(ShowInt(n)) == Some(n)
    ensures ShowInt(n) != [] && IsDigit(ShowInt(n)[|ShowInt(n)| - 1])
    ensures !IsSpace(ShowInt(n)[|ShowInt(n)| - 1])
  {
    if n < 0 {
      var digits := ShowNat(-n);
      DigitsValueOfShow(-n);
      assert ShowInt(n) == "-" + digits;
      assert ShowInt(n)[0] == '-' && ShowInt(n)[1..] == digits;
      assert ShowInt(n)[|ShowInt(n)| - 1] == digits[|digits| - 1];
    } else {
      var digits := ShowNat(n);
      DigitsValueOfShow(n);
      assert IsDigit(digits[0]);
      assert IsDigit(digits[|digits| - 1]);
    }
  }

  // --------------------------------------------------------- lower and words

  /** str.lower() on one character (ASCII letters only). */
  function LowerChar(c: char): char {
    if 'A' <= c <= 'Z' then (c as int + 32) as char else c
  }

  /** str.lower(). */
  function Lower(s: string): (r: string)
    ensures |r| == |s|
    ensures forall i :: 0 <= i < |s| ==> !('A' <= r[i] <= 'Z')
    ensures forall i :: 0 <= i < |s| ==> (IsWordChar(r[i]) <==> IsWordChar(s[i]))
  {
    seq(|s|, i requires 0 <= i < |s| => LowerChar(s[i]))
  }

  lemma {:induction false} LowerConcat(a: string, b: string)
    ensures Lower(a + b) == Lower(a) + Lower(b)
  {
    assert forall i :: 0 <= i < |a + b| ==> Lower(a + b)[i] == (Lower(a) + Lower(b))[i];
  }

  /** The \w character class (its ASCII members). */
  predicate IsWordChar(c: char) {
    ('a' <= c <= 'z') || ('A' <= c <= 'Z') || IsDigit(c) || c == '_'
  }

  /** A non-empty run of word characters. */
  predicate IsWord(w: string) {
    w != [] && forall i :: 0 <= i < |w| ==> IsWordChar(w[i])
  }

  predicate NoWordChar(s: string) {
    forall i :: 0 <= i < |s| ==> !IsWordChar(s[i])
  }

  /** The length of the run of word characters at the start of s. */
  function RunLength(s: string): (n: nat)
    ensures n <= |s|
    ensures forall i :: 0 <= i < n ==> IsWordChar(s[i])
    ensures n < |s| ==> !IsWordChar(s[n])
  {
    if s == [] || !IsWordChar(s[0]) then 0 else 1 + RunLength(s[1..])
  }

  /** re.findall(r'\b\w+\b', s): the maximal runs of word characters, left to right. */
  function Tokens(s: string): (ts: seq<string>)
    ensures forall k :: 0 <= k < |ts| ==> IsWord(ts[k])
    decreases |s|
  {
    if s == [] then []
    else if !IsWordChar(s[0]) then Tokens(s[1..])
    else
      var n := RunLength(s);
      [s[..n]] + Tokens(s[n..])
  }

  /** The run at the start of s ends at the first non-word character. */
  lemma {:induction false} RunLengthIs(s: string, n: nat)
    requires n <= |s|
    requires forall i :: 0 <= i < n ==> IsWordChar(s[i])
    requires n < |s| ==> !IsWordChar(s[n])
    ensures RunLength(s) == n
  {
    if n > 0 {
      RunLengthIs(s[1..], n - 1);
    }
  }

  /** Text without word characters holds no token. */
  lemma {:induction false} TokensOfGap(g: string)
    requires NoWordChar(g)
    ensures Tokens(g) == []
  {
    if g != [] {
      TokensOfGap(g[1..]);
    }
  }

  /** A single run of word characters is one token. */
  lemma TokensOfWord(w: string)
    requires IsWord(w)
    ensures Tokens(w) == [w]
  {
    RunLengthIs(w, |w|);
    assert w[|w|..] == [];
    assert w[..|w|] == w;
  }

  /** No token spans a non-word character: the tokens of the two sides are concatenated. */
  lemma {:induction false} TokensSplit(a: string, c: char, b: string)
    requires !IsWordChar(c)
    ensures Tokens(a + [c] + b) == Tokens(a) + Tokens(b)
    decreases |a|
  {
    var s := a + [c] + b;
    if a == [] {
      assert s[1..] == b;
    } else if !IsWordChar(a[0]) {
      assert s[1..] == a[1..] + [c] + b;
      TokensSplit(a[1..], c, b);
    } else {
      var n := RunLength(a);
      RunLengthIs(s, n);
      assert s[..n] == a[..n];
      assert s[n..] == a[n..] + [c] + b;
      TokensSplit(a[n..], c, b);
    }
  }

  /** Words separated by a non-word character are tokenised back into exactly those words. */
  lemma {:induction false} TokensOfJoined(words: seq<string>, sep: char)
    requires |words| >= 1 && !IsWordChar(sep)
    requires forall k :: 0 <= k < |words| ==> IsWord(words[k])
    ensures Tokens(Join(words, sep)) == words
    decreases |words|
  {
    TokensOfWord(words[0]);
    if |words| > 1 {
      TokensSplit(words[0], sep, Join(words[1..], sep));
      TokensOfJoined(words[1..], sep);
      assert words == [words[0]] + words[1..];
    }
  }

  /** Padding a text with non-word characters on either side leaves its tokens unchanged. */
  lemma TokensPadded(before: string, s: string, after: string)
    requires NoWordChar(before) && NoWordChar(after)
    ensures Tokens(before + s + after) == Tokens(s)
  {
    var t := s + after;
    if after != [] {
      assert t == s + [after[0]] + after[1..];
      TokensSplit(s, after[0], after[1..]);
      TokensOfGap(after[1..]);
    } else {
      assert t == s;
    }
    if before != [] {
      var n := |before| - 1;
      assert before + s + after == before[..n] + [before[n]] + t;
      TokensSplit(before[..n], before[n], t);
      TokensOfGap(before[..n]);
    } else {
      assert before + s + after == t;
    }
  }
}
