/** The string operations the goal tokenizer and the reason texts rely on:
    `str.lower()`, `str.split()` with no separator, and `str(n)` for a
    natural number. */
module Text {

  /** The characters Python's argument-less `str.split()` treats as
      whitespace (those for which `str.isspace()` holds). */
  predicate IsSpace(c: char) {
    || c == ' '
    || ('\U{9}' <= c <= '\U{D}')
    || ('\U{1C}' <= c <= '\U{1F}')
    || c == '\U{85}' || c == '\U{A0}' || c == '\U{1680}'
    || ('\U{2000}' <= c <= '\U{200A}')
    || c == '\U{2028}' || c == '\U{2029}' || c == '\U{202F}'
    || c == '\U{205F}' || c == '\U{3000}'
  }

  predicate IsUpper(c: char) {
    'A' <= c <= 'Z'
  }

  /** A word as `str.split()` produces it: non-empty and free of whitespace. */
  predicate IsWord(w: string) {
    w != [] && forall i | 0 <= i < |w| :: !IsSpace(w[i])
  }

  /** A word with no upper-case ASCII letter: the only kind of string that
      lower-casing and splitting can produce. */
  predicate IsLowerWord(w: string) {
    IsWord(w) && forall i | 0 <= i < |w| :: !IsUpper(w[i])
  }

  function LowerChar(c: char): (d: char)
    ensures !IsUpper(d)
    ensures IsSpace(d) <==> IsSpace(c)
    ensures !IsUpper(c) ==> d == c
    ensures IsUpper(c) ==> d as int == c as int + 32
  {
    if IsUpper(c) then (c as int + 32) as char else c
  }

  /** `str.lower()` on the ASCII letters; every other character is kept. */
  function Lower(s: string): (r: string)
    ensures |r| == |s|
    ensures forall i | 0 <= i < |r| :: !IsUpper(r[i])
    ensures forall i | 0 <= i < |r| :: IsSpace(r[i]) <==> IsSpace(s[i])
    ensures forall i | 0 <= i < |s| :: !IsUpper(s[i]) ==> r[i] == s[i]
    ensures forall i | 0 <= i < |s| :: IsUpper(s[i]) ==> r[i] as int == s[i] as int + 32
  {
    seq(|s|, i requires 0 <= i < |s| => LowerChar(s[i]))
  }

  /** Lower-casing leaves a string without upper-case letters as it is. */
  lemma LowerOfLower(s: string)
    requires forall i | 0 <= i < |s| :: !IsUpper(s[i])
    ensures Lower(s) == s
  {
  }

  /** Length of the longest whitespace-free prefix of `s`. */
  function WordLength(s: string): (n: nat)
    ensures n <= |s|
    ensures forall i | 0 <= i < n :: !IsSpace(s[i])
    ensures n < |s| ==> IsSpace(s[n])
  {
    if s == [] || IsSpace(s[0]) then 0 else 1 + WordLength(s[1..])
  }

  /** `str.split()`: the maximal runs of non-whitespace characters, in order;
      leading, trailing and repeated whitespace produce no empty words. */
  function Split(s: string): (ws: seq<string>)
    ensures forall i | 0 <= i < |ws| :: IsWord(ws[i])
    ensures forall i, j | 0 <= i < |ws| && 0 <= j < |ws[i]| :: ws[i][j] in s
    decreases |s|
  {
    if s == [] then []
    else if IsSpace(s[0]) then Split(s[1..])
    else
      var n := WordLength(s);
      [s[..n]] + Split(s[n..])
  }

  /** The characters of `s` that are not whitespace. */
  function Squeeze(s: string): string {
    if s == [] then [] else (if IsSpace(s[0]) then [] else [s[0]]) + Squeeze(s[1..])
  }

  function Concat(ws: seq<string>): string {
    if ws == [] then [] else ws[0] + Concat(ws[1..])
  }

  /** `" ".join(ws)`. */
  function JoinSpaced(ws: seq<string>): string {
    if ws == [] then [] else if |ws| == 1 then ws[0] else ws[0] + " " + JoinSpaced(ws[1..])
  }

  lemma {:induction false} SqueezeAppend(a: string, b: string)
    ensures Squeeze(a + b) == Squeeze(a) + Squeeze(b)
    decreases |a|
  {
    if a == [] {
      assert a + b == b;
    } else {
      assert (a + b)[1..] == a[1..] + b;
      SqueezeAppend(a[1..], b);
    }
  }

  lemma {:induction false} SqueezeWord(w: string)
    requires forall i | 0 <= i < |w| :: !IsSpace(w[i])
    ensures Squeeze(w) == w
    decreases |w|
  {
    if w != [] {
      SqueezeWord(w[1..]);
      assert w == [w[0]] + w[1..];
    }
  }

  /** Splitting loses exactly the whitespace: the words, glued back together,
      are the input with its whitespace removed. */
  lemma {:induction false} SplitKeepsText(s: string)
    ensures Concat(Split(s)) == Squeeze(s)
    decreases |s|
  {
    if s == [] {
    } else if IsSpace(s[0]) {
      SplitKeepsText(s[1..]);
    } else {
      var n := WordLength(s);
      assert s == s[..n] + s[n..];
      SplitKeepsText(s[n..]);
      SqueezeAppend(s[..n], s[n..]);
      SqueezeWord(s[..n]);
      assert Split(s)[1..] == Split(s[n..]);
    }
  }

  lemma {:induction false} SplitWordThen(w: string, rest: string)
    requires IsWord(w)
    requires rest == [] || IsSpace(rest[0])
    ensures Split(w + rest) == [w] + Split(rest)
  {
    var s := w + rest;
    assert s[0] == w[0];
    WordLengthOfWord(w, rest);
    assert s[..|w|] == w;
    assert s[|w|..] == rest;
  }

  lemma {:induction false} WordLengthOfWord(w: string, rest: string)
    requires forall i | 0 <= i < |w| :: !IsSpace(w[i])
    requires rest == [] || IsSpace(rest[0])
    ensures WordLength(w + rest) == |w|
    decreases |w|
  {
    if w == [] {
      assert w + rest == rest;
    } else {
      assert (w + rest)[1..] == w[1..] + rest;
      WordLengthOfWord(w[1..], rest);
    }
  }

  /** A word splits into itself. */
  lemma SplitWord(w: string)
    requires IsWord(w)
    ensures Split(w) == [w]
  {
    SplitWordThen(w, []);
    assert w + [] == w;
  }

  /** Any whitespace character separates: the words on either side of it
      are split apart. With `SplitWord` and `Split("") == []` this pins
      `Split` down to the maximal whitespace-free runs. */
  lemma {:induction false} SplitAtSpace(a: string, c: char, b: string)
    requires IsSpace(c)
    ensures Split(a + [c] + b) == Split(a) + Split(b)
    decreases |a|
  {
    var s := a + [c] + b;
    if a == [] {
      assert s == [c] + b;
      assert s[1..] == b;
    } else if IsSpace(a[0]) {
      assert s[0] == a[0];
      assert s[1..] == a[1..] + [c] + b;
      SplitAtSpace(a[1..], c, b);
    } else {
      var n := WordLength(a);
      var rest := a[n..] + [c] + b;
      assert a == a[..n] + a[n..];
      assert s == a[..n] + rest;
      assert rest[0] == if n < |a| then a[n] else c;
      WordLengthOfWord(a[..n], rest);
      assert s[..n] == a[..n];
      assert s[n..] == rest;
      SplitAtSpace(a[n..], c, b);
      assert Split(s) == [a[..n]] + Split(rest);
      assert Split(a) == [a[..n]] + Split(a[n..]);
    }
  }

  /** Round trip: splitting words joined by single spaces gives the words
      back, so long as each is a word in the sense of `IsWord`. */
  lemma {:induction false} SplitJoinSpaced(ws: seq<string>)
    requires forall i | 0 <= i < |ws| :: IsWord(ws[i])
    ensures Split(JoinSpaced(ws)) == ws
    decreases |ws|
  {
    if ws == [] {
    } else if |ws| == 1 {
      SplitWordThen(ws[0], []);
      assert ws[0] + [] == ws[0];
    } else {
      var tail := JoinSpaced(ws[1..]);
      SplitJoinSpaced(ws[1..]);
      assert ws[0] + " " + tail == ws[0] + (" " + tail);
      SplitWordThen(ws[0], " " + tail);
      assert (" " + tail)[1..] == tail;
      assert Split(" " + tail) == Split(tail);
      assert ws == [ws[0]] + ws[1..];
    }
  }

  function DigitChar(d: nat): (c: char)
    requires d < 10
    ensures '0' <= c <= '9'
    ensures c as int - '0' as int == d
  {
    ('0' as int + d) as char
  }

  predicate IsDigits(s: string) {
    forall i | 0 <= i < |s| :: '0' <= s[i] <= '9'
  }

  /** The number a string of decimal digits denotes, `int(s)`. */
  function DigitsValue(s: string): nat
    requires IsDigits(s)
  {
    if s == [] then 0 else DigitsValue(s[..|s| - 1]) * 10 + (s[|s| - 1] as int - '0' as int)
  }

  /** `str(n)` for a natural number: its decimal digits, most significant first. */
  function Decimal(n: nat): (s: string)
    ensures s != []
    ensures IsDigits(s)
    ensures n > 0 ==> s[0] != '0'
  {
    if n < 10 then [DigitChar(n)] else Decimal(n / 10) + [DigitChar(n % 10)]
  }

  /** Reading back the digits `str(n)` gives `n`. */
  lemma {:induction false} DecimalRoundTrip(n: nat)
    ensures DigitsValue(Decimal(n)) == n
    decreases n
  {
    if n >= 10 {
      DecimalRoundTrip(n / 10);
      var s := Decimal(n);
      assert s[..|s| - 1] == Decimal(n / 10);
    } else {
      assert Decimal(n)[..0] == [];
    }
  }

  lemma DecimalInjective(m: nat, n: nat)
    requires Decimal(m) == Decimal(n)
    ensures m == n
  {
    DecimalRoundTrip(m);
    DecimalRoundTrip(n);
  }
}
