/**
 * The text conventions the matrix log relies on: C's `%ld` on the writing
 * side (matrix.c), and Python's `int`, `str.split` and `str.split(sep)` on
 * the reading side (check_answers.py).
 */
module Text {
  import opened Wrappers

  /** An ASCII decimal digit. */
  predicate IsDigit(c: char)
  {
    '0' <= c <= '9'
  }

  /** The whitespace `str.split()` and `str.strip()` skip, restricted to the ASCII range. */
  predicate IsSpace(c: char)
  {
    c == ' ' || c == '\t' || c == '\n' || c == '\r' || c == '\U{B}' || c == '\U{C}' ||
    ('\U{1C}' <= c <= '\U{1F}')
  }

  /** The character of digit `d`. */
  function DigitChar(d: int): (c: char)
    requires 0 <= d < 10
    ensures IsDigit(c) && DigitValue(c) == d
  {
    (48 + d) as char
  }

  /** The value of digit character `c`. */
  function DigitValue(c: char): int
    requires IsDigit(c)
  {
    c as int - 48
  }

  /** Every character of `s` is a digit. */
  predicate AllDigits(s: string)
  {
    forall i :: 0 <= i < |s| ==> IsDigit(s[i])
  }

  /** The decimal digits of `n`, most significant first, with no leading zero. */
  function Digits(n: nat): (s: string)
    ensures |s| > 0 && AllDigits(s)
    ensures n >= 10 ==> s[0] != '0'
  {
    if n < 10 then [DigitChar(n)] else Digits(n / 10) + [DigitChar(n % 10)]
  }

  /** The number a string of digits spells, most significant first. */
  function ValueOf(s: string): nat
    requires AllDigits(s)
  {
    if |s| == 0 then 0 else ValueOf(s[..|s| - 1]) * 10 + DigitValue(s[|s| - 1])
  }

  /** Reading the digits of `n` gives `n` back. */
  lemma {:induction false} ValueOfDigits(n: nat)
    ensures ValueOf(Digits(n)) == n
  {
    if n >= 10 {
      var s := Digits(n);
      assert s[..|s| - 1] == Digits(n / 10);
      ValueOfDigits(n / 10);
    }
  }

  /**
   * `%ld`: a minus sign for a negative value, then the digits of the
   * magnitude. The text is never empty and holds only digits and at most
   * a leading minus sign.
   */
  function FormatInt(n: int): (s: string)
    ensures |s| > 0 && IsDigit(s[|s| - 1])
    ensures forall i :: 0 <= i < |s| ==> IsDigit(s[i]) || (i == 0 && s[i] == '-')
    ensures s[0] == '-' <==> n < 0
  {
    if n < 0 then "-" + Digits(-n) else Digits(n)
  }

  /** `s` without its leading whitespace. */
  function TrimLeft(s: string): (t: string)
    ensures |t| <= |s| && t == s[|s| - |t|..]
    ensures |t| > 0 ==> !IsSpace(t[0])
  {
    if |s| > 0 && IsSpace(s[0]) then TrimLeft(s[1..]) else s
  }

  /** `s` without its trailing whitespace. */
  function TrimRight(s: string): (t: string)
    ensures |t| <= |s| && t == s[..|t|]
    ensures |t| > 0 ==> !IsSpace(t[|t| - 1])
  {
    if |s| > 0 && IsSpace(s[|s| - 1]) then TrimRight(s[..|s| - 1]) else s
  }

  /**
   * Python's `int(s)`: surrounding whitespace is ignored, then an optional
   * sign and one or more digits; anything else is a `ValueError`, here
   * `None`.
   */
  function ParseInt(s: string): (r: Option<int>)
  {
    ParseNumeral(TrimRight(TrimLeft(s)))
  }

  /** An optional sign followed by one or more digits, with nothing around them. */
  function ParseNumeral(t: string): (r: Option<int>)
  {
    if |t| > 1 && (t[0] == '-' || t[0] == '+') && AllDigits(t[1..]) then
      var magnitude: int := ValueOf(t[1..]);
      Some(if t[0] == '-' then -magnitude else magnitude)
    else if |t| > 0 && AllDigits(t) then
      Some(ValueOf(t))
    else
      None
  }

  /** `int` reads back what `%ld` writes, also after the blank that `", "` leaves in front. */
  lemma ParseFormatInt(n: int)
    ensures ParseInt(FormatInt(n)) == Some(n)
    ensures ParseInt(" " + FormatInt(n)) == Some(n)
  {
    Untrimmed(FormatInt(n));
    ParseNumeralFormatInt(n);
  }

  /** The numeral `%ld` writes has the value it was written from. */
  lemma ParseNumeralFormatInt(n: int)
    ensures ParseNumeral(FormatInt(n)) == Some(n)
  {
    var s := FormatInt(n);
    if n < 0 {
      assert s[1..] == Digits(-n);
      ValueOfDigits(-n);
    } else {
      ValueOfDigits(n);
    }
  }

  /** Stripping leaves text alone that neither starts nor ends with whitespace, one leading blank aside. */
  lemma Untrimmed(s: string)
    requires |s| > 0 && !IsSpace(s[0]) && !IsSpace(s[|s| - 1])
    ensures TrimRight(TrimLeft(s)) == s
    ensures TrimRight(TrimLeft(" " + s)) == s
  {
    assert TrimLeft(s) == s;
    assert (" " + s)[1..] == s;
    assert TrimRight(s) == s;
  }

  /** The length of the run of non-whitespace characters that starts `s`. */
  function WordLength(s: string): (n: nat)
    ensures n <= |s|
    ensures forall i :: 0 <= i < n ==> !IsSpace(s[i])
    ensures n < |s| ==> IsSpace(s[n])
  {
    if |s| == 0 || IsSpace(s[0]) then 0 else 1 + WordLength(s[1..])
  }

  /**
   * Python's `s.split()`: the maximal runs of non-whitespace characters,
   * in order; whitespace alone gives no word at all.
   */
  function Words(s: string): (r: seq<string>)
    decreases |s|
  {
    if |s| == 0 then []
    else if IsSpace(s[0]) then Words(s[1..])
    else
      var n := WordLength(s);
      [s[..n]] + Words(s[n..])
  }

  /** A word followed by whitespace is split off whole. */
  lemma WordsCons(w: string, c: char, rest: string)
    requires |w| > 0 && (forall i :: 0 <= i < |w| ==> !IsSpace(w[i])) && IsSpace(c)
    ensures Words(w + [c] + rest) == [w] + Words(rest)
  {
    var s := w + [c] + rest;
    WordLengthCons(w, c, rest);
    assert s[..|w|] == w;
    assert s[|w|..][1..] == rest;
  }

  /** The first run of `w + [c] + rest` is `w` when `c` is whitespace. */
  lemma {:induction false} WordLengthCons(w: string, c: char, rest: string)
    requires (forall i :: 0 <= i < |w| ==> !IsSpace(w[i])) && IsSpace(c)
    ensures WordLength(w + [c] + rest) == |w|
  {
    if |w| > 0 {
      assert (w + [c] + rest)[1..] == w[1..] + [c] + rest;
      WordLengthCons(w[1..], c, rest);
    }
  }

  /** One printed matrix row: each value in `%ld` form followed by a single blank. */
  function RowText(xs: seq<int>): (s: string)
    ensures |xs| == 0 <==> |s| == 0
  {
    if |xs| == 0 then "" else FormatInt(xs[0]) + " " + RowText(xs[1..])
  }

  /** Python's `[int(j) for j in words]`: every word must parse, or the whole is a `ValueError`. */
  function ParseInts(words: seq<string>): (r: Option<seq<int>>)
  {
    if |words| == 0 then Some([])
    else match (ParseInt(words[0]), ParseInts(words[1..]))
      case (Some(x), Some(xs)) => Some([x] + xs)
      case _ => None
  }

  /** Reading a printed row back, word by word, gives the same values. */
  lemma {:induction false} ParseRowText(xs: seq<int>)
    ensures ParseInts(Words(RowText(xs))) == Some(xs)
  {
    if |xs| > 0 {
      WordsRowText(xs);
      ParseFormatInt(xs[0]);
      ParseRowText(xs[1..]);
      ParseIntsCons(FormatInt(xs[0]), Words(RowText(xs[1..])), xs);
    }
  }

  /** The first word of a printed row is its first value in `%ld` form. */
  lemma WordsRowText(xs: seq<int>)
    requires |xs| > 0
    ensures Words(RowText(xs)) == [FormatInt(xs[0])] + Words(RowText(xs[1..]))
  {
    var w := FormatInt(xs[0]);
    assert RowText(xs) == w + [' '] + RowText(xs[1..]);
    WordsCons(w, ' ', RowText(xs[1..]));
  }

  /** A list of words parses when its first word and the rest do. */
  lemma ParseIntsCons(w: string, ws: seq<string>, xs: seq<int>)
    requires |xs| > 0 && ParseInt(w) == Some(xs[0]) && ParseInts(ws) == Some(xs[1..])
    ensures ParseInts([w] + ws) == Some(xs)
  {
    assert ([w] + ws)[1..] == ws;
    assert [xs[0]] + xs[1..] == xs;
  }

  /** The position of the first `sep` in `s`, or `|s|` when there is none. */
  function IndexOf(s: string, sep: char): (k: nat)
    ensures k <= |s| && (k < |s| ==> s[k] == sep)
    ensures forall i :: 0 <= i < k ==> s[i] != sep
  {
    if |s| == 0 || s[0] == sep then 0 else 1 + IndexOf(s[1..], sep)
  }

  /**
   * Python's `s.split(sep)` for a one-character separator: the pieces
   * between separators, so one more piece than there are separators.
   */
  function Split(s: string, sep: char): (r: seq<string>)
    ensures |r| > 0 && (|r| == 1 <==> sep !in s)
    decreases |s|
  {
    var k := IndexOf(s, sep);
    if k == |s| then [s] else [s[..k]] + Split(s[k + 1..], sep)
  }

  /** Putting the separators back between the pieces of a split. */
  function Join(pieces: seq<string>, sep: char): string
    requires |pieces| > 0
  {
    if |pieces| == 1 then pieces[0] else pieces[0] + [sep] + Join(pieces[1..], sep)
  }

  /** A split loses nothing: joining the pieces gives the text back. */
  lemma {:induction false} JoinSplit(s: string, sep: char)
    ensures Join(Split(s, sep), sep) == s
    decreases |s|
  {
    var k := IndexOf(s, sep);
    if k < |s| {
      var head, tail := s[..k], s[k + 1..];
      SplitAt(s, sep);
      JoinSplit(tail, sep);
      JoinCons(head, Split(tail, sep), sep);
      Reassemble(s, k, sep);
    }
  }

  /** A split at the first separator: the text before it, then the split of the rest. */
  lemma SplitAt(s: string, sep: char)
    requires IndexOf(s, sep) < |s|
    ensures Split(s, sep) == [s[..IndexOf(s, sep)]] + Split(s[IndexOf(s, sep) + 1..], sep)
  {
  }

  /** The text around a separator, with the separator put back, is the text. */
  lemma Reassemble(s: string, k: int, sep: char)
    requires 0 <= k < |s| && s[k] == sep
    ensures s[..k] + [sep] + s[k + 1..] == s
  {
  }

  /** Joining a first piece onto more pieces puts one separator between them. */
  lemma JoinCons(piece: string, pieces: seq<string>, sep: char)
    requires |pieces| > 0
    ensures Join([piece] + pieces, sep) == piece + [sep] + Join(pieces, sep)
  {
    assert ([piece] + pieces)[1..] == pieces;
  }

  /** Text without the separator is a single piece. */
  lemma SplitNone(s: string, sep: char)
    requires sep !in s
    ensures Split(s, sep) == [s]
  {
  }

  /** The first separator of `a + [sep] + b` ends the first piece when `a` holds none. */
  lemma SplitFirst(a: string, sep: char, b: string)
    requires sep !in a
    ensures Split(a + [sep] + b, sep) == [a] + Split(b, sep)
  {
    var s := a + [sep] + b;
    assert s[|a|] == sep;
    assert IndexOf(s, sep) == |a|;
    assert s[..|a|] == a && s[|a| + 1..] == b;
  }

  /** Where a suffix of `s` is `pre + rest`, with `pre` one line and `n` more, the slices of `s` are `pre`'s head, its tail, and `rest`. */
  lemma SuffixSlices<T>(s: seq<T>, i: int, pre: seq<T>, n: int, rest: seq<T>)
    requires 0 <= i <= |s| && s[i..] == pre + rest && |pre| == n + 1 && 0 <= n
    ensures i + 1 + n <= |s| && s[i] == pre[0]
    ensures s[i + 1..i + 1 + n] == pre[1..] && s[i + 1 + n..] == rest
  {
    assert |s[i..]| == |pre| + |rest|;
    assert s[i] == s[i..][0];
    forall k | 0 <= k < n
      ensures s[i + 1..i + 1 + n][k] == pre[1..][k]
    {
      assert s[i + 1 + k] == s[i..][1 + k];
    }
    forall k | 0 <= k < |rest|
      ensures s[i + 1 + n..][k] == rest[k]
    {
      assert s[i + 1 + n + k] == s[i..][1 + n + k];
    }
  }

  /** Where a suffix of `s` is `[x] + rest`, the line there is `x` and `rest` follows it. */
  lemma SuffixHead<T>(s: seq<T>, i: int, x: T, rest: seq<T>)
    requires 0 <= i <= |s| && s[i..] == [x] + rest
    ensures i < |s| && s[i] == x && s[i + 1..] == rest
  {
    assert s[i] == s[i..][0];
    assert s[i + 1..] == s[i..][1..];
  }

  /** `s.startswith(prefix)`. */
  predicate StartsWith(s: string, prefix: string)
  {
    |prefix| <= |s| && s[..|prefix|] == prefix
  }
}
