/** Character-level view of the porch-conf text: the whitespace tokenizer that
    `std::istringstream >> std::string` implements, `std::setw` left padding,
    and decimal formatting / parsing of the numeric fields. */
module Text {

  /** The characters C's `isspace` accepts in the "C" locale. */
  predicate IsSpace(ch: char) {
    ch == ' ' || ch == '\t' || ch == '\n' || ch == '\r' || ch == '\U{000B}' || ch == '\U{000C}'
  }

  predicate NoSpace(s: string) {
    forall i :: 0 <= i < |s| ==> !IsSpace(s[i])
  }

  /** A word as the tokenizer produces it: non-empty and free of whitespace. */
  predicate IsWord(w: string) {
    w != [] && NoSpace(w)
  }

  /** Length of the run of non-space characters at the front of `s`. */
  function TokenLen(s: string): (n: nat)
    ensures n <= |s|
    ensures NoSpace(s[..n])
    ensures n < |s| ==> IsSpace(s[n])
  {
    if s == [] || IsSpace(s[0]) then 0
    else
      var n := 1 + TokenLen(s[1..]);
      assert s[..n] == [s[0]] + s[1..][..n - 1];
      n
  }

  /** The whitespace-separated words of `s`, in order, as repeated
      `stream >> word` extracts them. */
  function Words(s: string): (ws: seq<string>)
    ensures forall i :: 0 <= i < |ws| ==> IsWord(ws[i])
    decreases |s|
  {
    if s == [] then []
    else if IsSpace(s[0]) then Words(s[1..])
    else
      var n := TokenLen(s);
      [s[..n]] + Words(s[n..])
  }

  /** Words joined by single spaces: the inverse of `Words` on word lists. */
  function Join(ws: seq<string>): string {
    if ws == [] then ""
    else if |ws| == 1 then ws[0]
    else ws[0] + " " + Join(ws[1..])
  }

  function Spaces(k: nat): (s: string)
    ensures |s| == k
    ensures forall i :: 0 <= i < k ==> s[i] == ' '
  {
    if k == 0 then "" else " " + Spaces(k - 1)
  }

  /** `stream << std::left << std::setw(width) << s`: `s` followed by as many
      blanks as it takes to reach `width`; never truncates. */
  function Pad(s: string, width: nat): (r: string)
    ensures |r| == if |s| < width then width else |s|
    ensures r[..|s|] == s
    ensures forall i :: |s| <= i < |r| ==> r[i] == ' '
  {
    if |s| < width then s + Spaces(width - |s|) else s
  }

  lemma {:induction false} TokenLenAppendSpace(a: string, t: string)
    requires t != [] && IsSpace(t[0])
    ensures TokenLen(a + t) == TokenLen(a)
    decreases |a|
  {
    if a == [] {
      assert a + t == t;
    } else {
      assert (a + t)[0] == a[0];
      if !IsSpace(a[0]) {
        assert (a + t)[1..] == a[1..] + t;
        TokenLenAppendSpace(a[1..], t);
      }
    }
  }

  lemma {:induction false} TokenLenAfterWord(x: string, r: string)
    requires NoSpace(x)
    ensures TokenLen(x + r) == |x| + TokenLen(r)
    decreases |x|
  {
    if x == [] {
      assert x + r == r;
    } else {
      assert (x + r)[0] == x[0];
      assert (x + r)[1..] == x[1..] + r;
      TokenLenAfterWord(x[1..], r);
    }
  }

  /** A whitespace character separates: the words of `a c b` are those of `a`
      followed by those of `b`. */
  lemma {:induction false} WordsSplit(a: string, c: char, b: string)
    requires IsSpace(c)
    ensures Words(a + [c] + b) == Words(a) + Words(b)
    decreases |a|, 1
  {
    var s := a + [c] + b;
    if a == [] {
      assert s == [c] + b;
      assert s[1..] == b;
    } else if IsSpace(a[0]) {
      assert s[0] == a[0];
      assert s[1..] == a[1..] + [c] + b;
      WordsSplit(a[1..], c, b);
    } else {
      WordsSplitAfterToken(a, c, b);
    }
  }

  /** The case of `WordsSplit` where `a` starts with a token. */
  lemma {:induction false} WordsSplitAfterToken(a: string, c: char, b: string)
    requires IsSpace(c) && a != [] && !IsSpace(a[0])
    ensures Words(a + [c] + b) == Words(a) + Words(b)
    decreases |a|, 0
  {
    var s := a + [c] + b;
    assert s[0] == a[0];
    assert s == a + ([c] + b);
    TokenLenAppendSpace(a, [c] + b);
    var n := TokenLen(a);
    assert n >= 1 by { assert TokenLen(a) == 1 + TokenLen(a[1..]); }
    assert s[..n] == a[..n];
    assert s[n..] == a[n..] + [c] + b;
    WordsSplit(a[n..], c, b);
  }

  lemma {:induction false} WordsOfSpaces(k: nat, b: string)
    ensures Words(Spaces(k) + b) == Words(b)
    decreases k
  {
    if k > 0 {
      var s := Spaces(k) + b;
      assert s[0] == ' ';
      assert s[1..] == Spaces(k - 1) + b;
      WordsOfSpaces(k - 1, b);
    } else {
      assert Spaces(k) + b == b;
    }
  }

  lemma WordsOfWord(w: string)
    requires IsWord(w)
    ensures Words(w) == [w]
  {
    TokenLenAfterWord(w, "");
    assert w + "" == w;
    assert w[..|w|] == w;
    assert w[|w|..] == "";
  }

  /** A word followed by a space and more text. */
  lemma WordsCons(w: string, b: string)
    requires IsWord(w)
    ensures Words(w + " " + b) == [w] + Words(b)
  {
    WordsSplit(w, ' ', b);
    WordsOfWord(w);
  }

  /** A word glued to whatever follows it without a space: the first word
      extends into the front of the rest. */
  lemma WordsGlued(x: string, r: string)
    requires IsWord(x)
    ensures Words(x + r) == [x + r[..TokenLen(r)]] + Words(r[TokenLen(r)..])
  {
    var s := x + r;
    TokenLenAfterWord(x, r);
    assert s[0] == x[0];
    var n := |x| + TokenLen(r);
    assert s[..n] == x + r[..TokenLen(r)];
    assert s[n..] == r[TokenLen(r)..];
  }

  /** `Words` recovers any list of words from its space-joined text. */
  lemma {:induction false} WordsJoin(ws: seq<string>)
    requires forall i :: 0 <= i < |ws| ==> IsWord(ws[i])
    ensures Words(Join(ws)) == ws
    decreases |ws|
  {
    if ws == [] {
    } else if |ws| == 1 {
      WordsOfWord(ws[0]);
    } else {
      WordsJoin(ws[1..]);
      WordsCons(ws[0], Join(ws[1..]));
      assert [ws[0]] + ws[1..] == ws;
    }
  }

  // ---------------------------------------------------------------------
  // Decimal numbers

  predicate IsDigit(ch: char) {
    '0' <= ch <= '9'
  }

  function DigitChar(d: nat): (ch: char)
    requires d < 10
    ensures IsDigit(ch)
  {
    (48 + d) as char
  }

  function DigitValue(ch: char): (d: nat)
    requires IsDigit(ch)
    ensures d < 10
  {
    (ch as int) - 48
  }

  predicate AllDigits(s: string) {
    forall i :: 0 <= i < |s| ==> IsDigit(s[i])
  }

  /** Decimal digits of `n`, most significant first, without leading zeros. */
  function Digits(n: nat): (s: string)
    ensures s != [] && AllDigits(s)
    decreases n
  {
    if n < 10 then [DigitChar(n)] else Digits(n / 10) + [DigitChar(n % 10)]
  }

  /** Value of a digit string read most significant first. */
  function DigitsValue(s: string): nat
    requires AllDigits(s)
  {
    if s == [] then 0 else DigitsValue(s[..|s| - 1]) * 10 + DigitValue(s[|s| - 1])
  }

  /** Length of the run of digits at the front of `s`. */
  function DigitRun(s: string): (n: nat)
    ensures n <= |s|
    ensures AllDigits(s[..n])
    ensures n < |s| ==> !IsDigit(s[n])
  {
    if s == [] || !IsDigit(s[0]) then 0
    else
      var n := 1 + DigitRun(s[1..]);
      assert s[..n] == [s[0]] + s[1..][..n - 1];
      n
  }

  /** A value as the file shows it: optional minus sign and decimal digits. */
  function FormatInt(v: int): (s: string)
    ensures IsWord(s)
  {
    if v < 0 then "-" + Digits(-v) else Digits(v)
  }

  function ReadDigits(s: string): nat {
    DigitsValue(s[..DigitRun(s)])
  }

  /** Reading a number from the front of a word, as `stream >> value` does: an
      optional sign, then the longest run of digits; nothing readable gives 0. */
  function ParseNumber(w: string): int {
    if w != [] && w[0] == '-' then -(ReadDigits(w[1..]) as int)
    else if w != [] && w[0] == '+' then ReadDigits(w[1..])
    else ReadDigits(w)
  }

  lemma {:induction false} DigitsValueOfDigits(n: nat)
    ensures DigitsValue(Digits(n)) == n
    decreases n
  {
    var s := Digits(n);
    if n >= 10 {
      DigitsValueOfDigits(n / 10);
      assert s[..|s| - 1] == Digits(n / 10);
    }
  }

  lemma {:induction false} DigitRunStops(d: string, rest: string)
    requires AllDigits(d)
    requires rest == [] || !IsDigit(rest[0])
    ensures DigitRun(d + rest) == |d|
    decreases |d|
  {
    if d == [] {
      assert d + rest == rest;
    } else {
      assert (d + rest)[0] == d[0];
      assert (d + rest)[1..] == d[1..] + rest;
      DigitRunStops(d[1..], rest);
    }
  }

  /** Parsing reads back exactly the formatted value, whatever non-digit text
      follows it. */
  lemma ParseFormat(v: int, rest: string)
    requires rest == [] || !IsDigit(rest[0])
    ensures ParseNumber(FormatInt(v) + rest) == v
  {
    var m: nat := if v < 0 then -v else v;
    var d := Digits(m);
    DigitRunStops(d, rest);
    assert (d + rest)[..|d|] == d;
    DigitsValueOfDigits(m);
    if v < 0 {
      var s := FormatInt(v) + rest;
      assert s[0] == '-';
      assert s[1..] == d + rest;
    } else {
      assert (d + rest)[0] == d[0];
    }
  }
}
