/** The string-to-value rules the scraper relies on: Python's `str.split()`
    and `int(...)`, with the whitespace `int(...)` strips, restricted to the ASCII characters the
    vote-count texts are made of.
 */
module Text {
  import opened Wrappers

  /** Which characters count as whitespace. `str.isspace` (used by
      `str.split()`) accepts tab, line feed, vertical tab,
      form feed, carriage return, the four information separators 0x1C-0x1F
      and the space. `int(...)` skips only the C whitespace around a numeral:
      the same set without the information separators. */
  datatype Blanks = StrBlanks | IntBlanks

  predicate IsBlank(b: Blanks, c: char) {
    c == ' ' || (9 <= c as int <= 13) || (b == StrBlanks && 28 <= c as int <= 31)
  }

  /** Every character is whitespace; `AllBlank(StrBlanks, s)` is `s.isspace()`
      or `s` empty. */
  predicate AllBlank(b: Blanks, s: string) {
    forall i :: 0 <= i < |s| ==> IsBlank(b, s[i])
  }

  /** No character is `str.isspace` whitespace: a word of the split. */
  predicate NoSpace(s: string) {
    forall i :: 0 <= i < |s| ==> !IsBlank(StrBlanks, s[i])
  }

  predicate IsDigit(c: char) {
    '0' <= c <= '9'
  }

  /** A non-empty run of ASCII digits: the only numerals `int(...)` accepts here. */
  predicate IsDecimal(s: string) {
    |s| > 0 && forall i :: 0 <= i < |s| ==> IsDigit(s[i])
  }

  /** `s` with its leading `b`-whitespace removed. */
  function TrimStart(b: Blanks, s: string): (r: string)
    ensures |r| <= |s|
    ensures r == [] || !IsBlank(b, r[0])
  {
    if s != [] && IsBlank(b, s[0]) then TrimStart(b, s[1..]) else s
  }

  /** `s` with its trailing `b`-whitespace removed. */
  function TrimEnd(b: Blanks, s: string): (r: string)
    ensures |r| <= |s|
    ensures r == [] || !IsBlank(b, r[|r| - 1])
  {
    if s != [] && IsBlank(b, s[|s| - 1]) then TrimEnd(b, s[..|s| - 1]) else s
  }

  /** Both ends trimmed; `int(...)` does this with `IntBlanks`. */
  function Strip(b: Blanks, s: string): string {
    TrimEnd(b, TrimStart(b, s))
  }

  /** The longest prefix of `s` holding no whitespace. */
  function Token(s: string): (r: string)
    ensures |r| <= |s|
    ensures NoSpace(r)
    ensures s != [] && !IsBlank(StrBlanks, s[0]) ==> r != []
  {
    if s != [] && !IsBlank(StrBlanks, s[0]) then [s[0]] + Token(s[1..]) else []
  }

  /** Python's `str.split()` with no separator: the maximal runs of
      non-whitespace characters, in order. */
  function Split(s: string): (r: seq<string>)
    ensures forall k :: 0 <= k < |r| ==> r[k] != [] && NoSpace(r[k])
    decreases |s|
  {
    var t := TrimStart(StrBlanks, s);
    if t == [] then [] else var w := Token(t); [w] + Split(t[|w|..])
  }

  /** What `TrimStart` removes is a whitespace prefix. */
  lemma {:induction false} TrimStartDropsSpace(b: Blanks, s: string)
    ensures var r := TrimStart(b, s); r == s[|s| - |r|..] && AllBlank(b, s[..|s| - |r|])
  {
    if s != [] && IsBlank(b, s[0]) {
      TrimStartDropsSpace(b, s[1..]);
    }
  }

  /** The split is empty exactly when the text is blank. */
  lemma SplitBlank(s: string)
    ensures Split(s) == [] <==> AllBlank(StrBlanks, s)
  {
    var t := TrimStart(StrBlanks, s);
    TrimStartDropsSpace(StrBlanks, s);
    if t == [] {
      assert s[..|s|] == s;
    } else {
      assert s[|s| - |t|] == t[0];
    }
  }

  /** Words joined with one space between consecutive words. */
  function JoinWords(words: seq<string>): string {
    if words == [] then []
    else if |words| == 1 then words[0]
    else words[0] + " " + JoinWords(words[1..])
  }

  /** The value of a string of ASCII digits, most significant digit first. */
  function DecimalValue(s: string): (r: nat)
    requires forall i :: 0 <= i < |s| ==> IsDigit(s[i])
  {
    if s == [] then 0
    else
      assert IsDigit(s[|s| - 1]);
      DecimalValue(s[..|s| - 1]) * 10 + ((s[|s| - 1] as int) - ('0' as int))
  }

  /** `z` zero digits: the leading zeros a numeral may carry. */
  function Zeros(z: nat): (r: string)
    ensures |r| == z
    ensures forall i :: 0 <= i < z ==> r[i] == '0'
  {
    if z == 0 then [] else Zeros(z - 1) + ['0']
  }

  function DigitChar(d: nat): (c: char)
    requires d < 10
    ensures IsDigit(c) && (c as int) - ('0' as int) == d
  {
    ('0' as int + d) as char
  }

  /** The canonical decimal numeral of `n` (Python's `str(n)`). */
  function ShowNat(n: nat): (r: string)
    ensures IsDecimal(r)
    ensures |r| > 1 ==> r[0] != '0'
  {
    if n < 10 then [DigitChar(n)] else ShowNat(n / 10) + [DigitChar(n % 10)]
  }

  /** Python's `int(text)` on an ASCII text: the C whitespace around the
      numeral is ignored (the information separators 0x1C-0x1F are not), and
      what is left must be a non-empty run of digits, otherwise `ValueError`
      is raised. */
  function PyInt(text: string): (r: Result<int>)
    ensures r.Ok? <==> IsDecimal(Strip(IntBlanks, text))
    ensures r.Ok? ==> r.value >= 0
    ensures r.Err? ==> r.error == ValueError
  {
    var t := Strip(IntBlanks, text);
    if IsDecimal(t) then Ok(DecimalValue(t)) else Err(ValueError)
  }

  /** `int(text.split()[0])`: the integer value of the first word, so
      `"15 votes"` gives 15. A blank text has no first word (`IndexError`). */
  function LeadingInt(text: string): (r: Result<int>)
    ensures r == Err(IndexError) <==> AllBlank(StrBlanks, text)
    ensures r.Ok? <==> var words := Split(text); words != [] && IsDecimal(words[0])
    ensures r.Err? && !AllBlank(StrBlanks, text) ==> r.error == ValueError
    ensures r.Ok? ==> r.value >= 0
  {
    var words := Split(text);
    SplitBlank(text);
    if words == [] then Err(IndexError)
    else
      WordIsStripped(words[0]);
      PyInt(words[0])
  }

  // ----- Lemmas -----

  /** A word of the split has nothing for `int(...)` to strip. */
  lemma WordIsStripped(w: string)
    requires NoSpace(w)
    ensures Strip(IntBlanks, w) == w
  {
    if w != [] {
      assert !IsBlank(IntBlanks, w[0]) && !IsBlank(IntBlanks, w[|w| - 1]);
      StripPadded(IntBlanks, [], w, []);
      assert [] + w + [] == w;
    }
  }

  /** A leading word ends at the first whitespace character. */
  lemma {:induction false} TokenOfWord(w: string, rest: string)
    requires NoSpace(w)
    requires rest == [] || IsBlank(StrBlanks, rest[0])
    ensures Token(w + rest) == w
  {
    if w == [] {
      assert w + rest == rest;
    } else {
      assert (w + rest)[1..] == w[1..] + rest;
      TokenOfWord(w[1..], rest);
    }
  }

  /** Leading whitespace never changes the split. */
  lemma {:induction false} SplitSkipsSpace(pad: string, s: string)
    requires AllBlank(StrBlanks, pad)
    ensures Split(pad + s) == Split(s)
  {
    if pad != [] {
      assert (pad + s)[1..] == pad[1..] + s;
      SplitSkipsSpace(pad[1..], s);
      assert TrimStart(StrBlanks, pad + s) == TrimStart(StrBlanks, pad[1..] + s);
    } else {
      assert pad + s == s;
    }
  }

  /** A word followed by whitespace (or by nothing) is the first word of the split. */
  lemma FirstWord(w: string, rest: string)
    requires w != [] && NoSpace(w)
    requires rest == [] || IsBlank(StrBlanks, rest[0])
    ensures Split(w + rest) == [w] + Split(rest)
  {
    var s := w + rest;
    assert TrimStart(StrBlanks, s) == s;
    TokenOfWord(w, rest);
    assert s[|w|..] == rest;
  }

  /** `str.split()` inverts joining non-empty, whitespace-free words with spaces. */
  lemma {:induction false} SplitJoinWords(words: seq<string>)
    requires forall k :: 0 <= k < |words| ==> words[k] != [] && NoSpace(words[k])
    ensures Split(JoinWords(words)) == words
  {
    if words == [] {
    } else if |words| == 1 {
      var w := words[0];
      FirstWord(w, []);
      assert w + [] == w;
      assert Split([]) == [];
    } else {
      var w, tail := words[0], JoinWords(words[1..]);
      var gap := " " + tail;
      assert JoinWords(words) == w + gap;
      FirstWord(w, gap);
      SplitSkipsSpace(" ", tail);
      SplitJoinWords(words[1..]);
      assert [w] + words[1..] == words;
    }
  }

  /** Reading back the numeral of `n` gives `n`. */
  lemma {:induction false} DecimalValueOfShowNat(n: nat)
    ensures DecimalValue(ShowNat(n)) == n
  {
    if n >= 10 {
      var s := ShowNat(n);
      assert s[..|s| - 1] == ShowNat(n / 10);
      DecimalValueOfShowNat(n / 10);
    }
  }

  /** Leading whitespace is exactly what `TrimStart` removes. */
  lemma {:induction false} TrimStartPadded(b: Blanks, pre: string, x: string)
    requires AllBlank(b, pre)
    requires x == [] || !IsBlank(b, x[0])
    ensures TrimStart(b, pre + x) == x
  {
    if pre == [] {
      assert pre + x == x;
    } else {
      assert (pre + x)[1..] == pre[1..] + x;
      TrimStartPadded(b, pre[1..], x);
    }
  }

  /** Trailing whitespace is exactly what `TrimEnd` removes. */
  lemma {:induction false} TrimEndPadded(b: Blanks, x: string, post: string)
    requires AllBlank(b, post)
    requires x == [] || !IsBlank(b, x[|x| - 1])
    ensures TrimEnd(b, x + post) == x
  {
    if post == [] {
      assert x + post == x;
    } else {
      var p := post[..|post| - 1];
      assert (x + post)[..|x + post| - 1] == x + p;
      TrimEndPadded(b, x, p);
    }
  }

  /** Stripping removes exactly the whitespace padding around a text that
      neither starts nor ends with whitespace. */
  lemma StripPadded(b: Blanks, pre: string, x: string, post: string)
    requires AllBlank(b, pre) && AllBlank(b, post)
    requires x != [] && !IsBlank(b, x[0]) && !IsBlank(b, x[|x| - 1])
    ensures Strip(b, pre + x + post) == x
  {
    assert pre + x + post == pre + (x + post);
    TrimStartPadded(b, pre, x + post);
    TrimEndPadded(b, x, post);
  }

  /** Leading zeros add nothing to a numeral's value. */
  lemma {:induction false} DecimalValueOfZeros(z: nat, s: string)
    requires forall i :: 0 <= i < |s| ==> IsDigit(s[i])
    ensures DecimalValue(Zeros(z) + s) == DecimalValue(s)
    decreases z + |s|
  {
    var t := Zeros(z) + s;
    if s != [] {
      var init := s[..|s| - 1];
      assert t[..|t| - 1] == Zeros(z) + init;
      assert t[|t| - 1] == s[|s| - 1];
      DecimalValueOfZeros(z, init);
    } else if z > 0 {
      assert t == Zeros(z - 1) + ['0'];
      assert t[..|t| - 1] == Zeros(z - 1) + [];
      DecimalValueOfZeros(z - 1, []);
    }
  }

  /** The numeral of `n` behind `z` leading zeros: every numeral has this
      shape, and it is a word of the split. */
  lemma PaddedNumeral(z: nat, n: nat)
    ensures var x := Zeros(z) + ShowNat(n);
      && IsDecimal(x) && NoSpace(x)
      && DecimalValue(x) == n
  {
    var x := Zeros(z) + ShowNat(n);
    assert forall i :: 0 <= i < |x| ==> IsDigit(x[i]);
    DecimalValueOfZeros(z, ShowNat(n));
    DecimalValueOfShowNat(n);
  }

  /** A numeral without leading zeros has a value of at least 1 when it is
      longer than one digit or its digit is not `0`. */
  lemma {:induction false} NoLeadingZeroIsPositive(s: string)
    requires IsDecimal(s) && s[0] != '0'
    ensures DecimalValue(s) >= 1
    decreases |s|
  {
    if |s| > 1 {
      NoLeadingZeroIsPositive(s[..|s| - 1]);
    }
  }

  /** A numeral without leading zeros is the canonical numeral of its value. */
  lemma {:induction false} ShowNatOfValue(s: string)
    requires IsDecimal(s) && (|s| == 1 || s[0] != '0')
    ensures ShowNat(DecimalValue(s)) == s
    decreases |s|
  {
    var d := (s[|s| - 1] as int) - ('0' as int);
    var n := DecimalValue(s);
    if |s| == 1 {
      var init := s[..|s| - 1];
      assert init == [];
      assert DecimalValue(init) == 0;
      assert n == DecimalValue(init) * 10 + d;
      assert DigitChar(d) == s[0];
    } else {
      var init := s[..|s| - 1];
      var v := DecimalValue(init);
      NoLeadingZeroIsPositive(init);
      ShowNatOfValue(init);
      assert n == v * 10 + d && 0 <= d < 10;
      assert n / 10 == v && n % 10 == d;
      assert DigitChar(d) == s[|s| - 1];
      assert s == init + [s[|s| - 1]];
    }
  }

  /** Every numeral is some leading zeros followed by the canonical numeral
      of its value. */
  lemma {:induction false} NumeralIsPadded(s: string)
    requires IsDecimal(s)
    ensures var t := ShowNat(DecimalValue(s));
      |t| <= |s| && s == Zeros(|s| - |t|) + t
    decreases |s|
  {
    if |s| == 1 || s[0] != '0' {
      ShowNatOfValue(s);
      assert Zeros(0) + s == s;
    } else {
      var tail := s[1..];
      assert Zeros(1) + tail == s;
      DecimalValueOfZeros(1, tail);
      NumeralIsPadded(tail);
      var t := ShowNat(DecimalValue(tail));
      var k := |tail| - |t|;
      assert Zeros(k + 1) == ['0'] + Zeros(k);
    }
  }

  /** What `int(...)` returns is the number whose numeral, behind leading
      zeros, is the text stripped of C whitespace. */
  lemma PyIntReadsNumeral(text: string)
    requires PyInt(text).Ok?
    ensures var t, n := Strip(IntBlanks, text), PyInt(text).value;
      n >= 0 && |ShowNat(n)| <= |t| && t == Zeros(|t| - |ShowNat(n)|) + ShowNat(n)
  {
    NumeralIsPadded(Strip(IntBlanks, text));
  }

  /** What the first-word rule returns is the number whose numeral, behind
      leading zeros, is the first word. */
  lemma LeadingIntReadsNumeral(text: string)
    requires LeadingInt(text).Ok?
    ensures var w, n := Split(text)[0], LeadingInt(text).value;
      n >= 0 && |ShowNat(n)| <= |w| && w == Zeros(|w| - |ShowNat(n)|) + ShowNat(n)
  {
    var w := Split(text)[0];
    WordIsStripped(w);
    assert LeadingInt(text) == PyInt(w);
    PyIntReadsNumeral(w);
  }

  /** `int(...)` reads back the numeral of any `n`, with any number of
      leading zeros and with or without C whitespace around it. */
  lemma PyIntOfShowNat(n: nat, z: nat, pre: string, post: string)
    requires AllBlank(IntBlanks, pre) && AllBlank(IntBlanks, post)
    ensures PyInt(pre + Zeros(z) + ShowNat(n) + post) == Ok(n)
  {
    var x := Zeros(z) + ShowNat(n);
    PaddedNumeral(z, n);
    assert pre + Zeros(z) + ShowNat(n) + post == pre + x + post;
    StripPadded(IntBlanks, pre, x, post);
  }

  /** The first-word rule reads the number, leading zeros and all, in front
      of any suffix, after any leading whitespace: `"<n> votes"` gives `n`. */
  lemma LeadingIntOfLabel(n: nat, z: nat, pre: string, rest: string)
    requires AllBlank(StrBlanks, pre)
    requires rest == [] || IsBlank(StrBlanks, rest[0])
    ensures LeadingInt(pre + Zeros(z) + ShowNat(n) + rest) == Ok(n)
  {
    var x := Zeros(z) + ShowNat(n);
    PaddedNumeral(z, n);
    assert pre + Zeros(z) + ShowNat(n) + rest == pre + (x + rest);
    SplitSkipsSpace(pre, x + rest);
    FirstWord(x, rest);
    WordIsStripped(x);
  }

  /** An information separator is whitespace to `str.split()` but not to
      `int(...)`: in front of a numeral it makes `int` fail, while the
      first-word rule skips it. */
  lemma SeparatorIsNotIntSpace(n: nat, sep: char)
    requires 28 <= sep as int <= 31
    ensures PyInt([sep] + ShowNat(n)) == Err(ValueError)
    ensures LeadingInt([sep] + ShowNat(n)) == Ok(n)
  {
    var x := ShowNat(n);
    var s := [sep] + x;
    TrimEndPadded(IntBlanks, s, []);
    assert s + [] == s;
    assert TrimStart(IntBlanks, s) == s;
    assert Zeros(0) == [];
    LeadingIntOfLabel(n, 0, [sep], []);
    assert [sep] + Zeros(0) + x + [] == s;
  }

  /** The plural vote-count shape the site shows. */
  lemma VotesLabelExample()
    ensures LeadingInt("15 votes") == Ok(15)
  {
    var fifteen := ShowNat(15);
    assert fifteen == "15";
    assert Zeros(0) == [];
    LeadingIntOfLabel(15, 0, [], " votes");
    assert [] + Zeros(0) + fifteen + " votes" == "15 votes";
  }

  /** The singular vote-count shape the site shows. */
  lemma VoteLabelExample()
    ensures LeadingInt("1 vote") == Ok(1)
  {
    var one := ShowNat(1);
    assert one == "1";
    assert Zeros(0) == [];
    LeadingIntOfLabel(1, 0, [], " vote");
    assert [] + Zeros(0) + one + " vote" == "1 vote";
  }

  /** Without the split, the labelled text is not a numeral. */
  lemma WholeTextRejectsLabel()
    ensures PyInt("15 votes") == Err(ValueError)
  {
  }
}
