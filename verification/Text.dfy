/** Options, results and the small string operations the rest of the model is written in.

Text is ASCII-like: case folding touches only A-Z, and "white space" is the blank, the control
characters from tab to carriage return, and the four separators. */
module Text {

  datatype Option<+T> = None | Some(value: T)

  datatype Result<+T, +E> = Ok(value: T) | Err(error: E)

  // ---------- characters ----------

  predicate IsDigit(c: char) {
    '0' <= c <= '9'
  }

  predicate IsSpace(c: char) {
    c == ' ' || '\t' <= c <= '\r' || 0x1c <= c as int <= 0x1f
  }

  function LowerChar(c: char): char {
    if 'A' <= c <= 'Z' then (c as int + 32) as char else c
  }

  function UpperChar(c: char): char {
    if 'a' <= c <= 'z' then (c as int - 32) as char else c
  }

  function Lower(s: string): string {
    seq(|s|, i requires 0 <= i < |s| => LowerChar(s[i]))
  }

  function Upper(s: string): string {
    seq(|s|, i requires 0 <= i < |s| => UpperChar(s[i]))
  }

  // ---------- cutting strings up ----------

  function Take<T>(s: seq<T>, n: nat): seq<T> {
    if |s| <= n then s else s[..n]
  }

  lemma Regroup<T>(a: seq<T>, b: seq<T>, c: seq<T>)
    ensures a + (b + c) == a + b + c
  {
  }

  predicate AllAre(s: string, keep: char -> bool) {
    forall i :: 0 <= i < |s| ==> keep(s[i])
  }

  predicate NoneIs(s: string, keep: char -> bool) {
    forall i :: 0 <= i < |s| ==> !keep(s[i])
  }

  function TrimLeft(s: string, drop: char -> bool): string {
    if s != "" && drop(s[0]) then TrimLeft(s[1..], drop) else s
  }

  function TrimRight(s: string, drop: char -> bool): string {
    if s != "" && drop(s[|s| - 1]) then TrimRight(s[..|s| - 1], drop) else s
  }

  function Strip(s: string): string {
    TrimRight(TrimLeft(s, IsSpace), IsSpace)
  }

  lemma {:induction false} TrimsLeft(before: string, rest: string, drop: char -> bool)
    requires AllAre(before, drop) && (rest == "" || !drop(rest[0]))
    ensures TrimLeft(before + rest, drop) == rest
  {
    if before == "" {
      assert before + rest == rest;
    } else {
      TrimsLeft(before[1..], rest, drop);
      assert (before + rest)[1..] == before[1..] + rest;
    }
  }

  lemma {:induction false} TrimsRight(rest: string, after: string, drop: char -> bool)
    requires AllAre(after, drop) && (rest == "" || !drop(rest[|rest| - 1]))
    ensures TrimRight(rest + after, drop) == rest
  {
    if after == "" {
      assert rest + after == rest;
    } else {
      var n := |after| - 1;
      TrimsRight(rest, after[..n], drop);
      assert (rest + after)[..|rest| + n] == rest + after[..n];
    }
  }

  /** The white space characters by their codes. */
  predicate IsBlankCode(c: char) {
    c as int in {9, 10, 11, 12, 13, 28, 29, 30, 31, 32}
  }

  /** White space, or nothing. */
  predicate Blank(s: string) {
    AllAre(s, IsBlankCode)
  }

  /** Stripping takes the white space off both ends, and nothing else. */
  lemma StripMeans(before: string, s: string, after: string)
    requires Blank(before) && Blank(after)
    requires s != "" ==> !IsBlankCode(s[0]) && !IsBlankCode(s[|s| - 1])
    ensures Strip(before + s + after) == s
  {
    Regroup(before, s, after);
    if s == "" {
      assert s + after == after && before + after + "" == before + after;
      TrimsLeft(before + after, "", IsSpace);
    } else {
      TrimsLeft(before, s + after, IsSpace);
      TrimsRight(s, after, IsSpace);
    }
  }

  /** The length of the longest prefix made of characters satisfying `keep`. */
  function RunLength(s: string, keep: char -> bool): (n: nat)
    ensures n <= |s|
  {
    if s != "" && keep(s[0]) then 1 + RunLength(s[1..], keep) else 0
  }

  /** The maximal runs of characters satisfying `keep`, in order. */
  function Words(s: string, keep: char -> bool): seq<string> {
    if s == "" then []
    else if !keep(s[0]) then Words(s[1..], keep)
    else
      var n := RunLength(s, keep);
      [s[..n]] + Words(s[n..], keep)
  }

  function Join(parts: seq<string>, separator: string): string {
    if parts == [] then ""
    else if |parts| == 1 then parts[0]
    else parts[0] + separator + Join(parts[1..], separator)
  }

  lemma {:induction false} RunOfWord(word: string, rest: string, keep: char -> bool)
    requires AllAre(word, keep) && (rest == "" || !keep(rest[0]))
    ensures RunLength(word + rest, keep) == |word|
  {
    if word == "" {
      assert word + rest == rest;
    } else {
      RunOfWord(word[1..], rest, keep);
      assert (word + rest)[1..] == word[1..] + rest;
    }
  }

  lemma {:induction false} WordsBehind(gap: string, rest: string, keep: char -> bool)
    requires NoneIs(gap, keep)
    ensures Words(gap + rest, keep) == Words(rest, keep)
  {
    if gap == "" {
      assert gap + rest == rest;
    } else {
      WordsBehind(gap[1..], rest, keep);
      assert (gap + rest)[1..] == gap[1..] + rest;
    }
  }

  lemma {:induction false} RunAhead(s: string, gap: string, keep: char -> bool)
    requires NoneIs(gap, keep)
    ensures RunLength(s + gap, keep) == RunLength(s, keep)
  {
    if s == "" {
      assert s + gap == gap;
    } else {
      RunAhead(s[1..], gap, keep);
      assert (s + gap)[1..] == s[1..] + gap;
    }
  }

  lemma {:induction false} WordsAhead(s: string, gap: string, keep: char -> bool)
    requires NoneIs(gap, keep)
    ensures Words(s + gap, keep) == Words(s, keep)
    decreases |s|
  {
    if s == "" {
      assert s + gap == gap && gap + "" == gap;
      WordsBehind(gap, "", keep);
    } else if !keep(s[0]) {
      assert (s + gap)[1..] == s[1..] + gap;
      WordsAhead(s[1..], gap, keep);
    } else {
      var n := RunLength(s, keep);
      RunAhead(s, gap, keep);
      assert (s + gap)[..n] == s[..n] && (s + gap)[n..] == s[n..] + gap;
      WordsAhead(s[n..], gap, keep);
    }
  }

  lemma FirstWord(word: string, rest: string, keep: char -> bool)
    requires word != "" && AllAre(word, keep) && (rest == "" || !keep(rest[0]))
    ensures Words(word + rest, keep) == [word] + Words(rest, keep)
  {
    RunOfWord(word, rest, keep);
    assert (word + rest)[..|word|] == word && (word + rest)[|word|..] == rest;
  }

  /** A text as words with something else before, between and behind them. */
  datatype Spelled = LastGap(gap: string) | NextWord(gap: string, word: string, rest: Spelled)

  function AsText(s: Spelled): string {
    match s
    case LastGap(gap) => gap
    case NextWord(gap, word, rest) => gap + (word + AsText(rest))
  }

  function WordsIn(s: Spelled): seq<string> {
    match s
    case LastGap(_) => []
    case NextWord(_, word, rest) => [word] + WordsIn(rest)
  }

  /** Words are made of these characters, and what stands between two of them of others. */
  predicate WellSpelled(s: Spelled, keep: char -> bool) {
    && NoneIs(s.gap, keep)
    && match s
       case LastGap(_) => true
       case NextWord(_, word, rest) =>
         word != "" && AllAre(word, keep) && WellSpelled(rest, keep) && (rest.NextWord? ==> rest.gap != "")
  }

  lemma AfterWord(s: Spelled, keep: char -> bool)
    requires WellSpelled(s, keep) && (s.NextWord? ==> s.gap != "")
    ensures AsText(s) == "" || !keep(AsText(s)[0])
  {
  }

  /** The words of a text are the words it is spelled with. */
  lemma {:induction false} WordsOfText(s: Spelled, keep: char -> bool)
    requires WellSpelled(s, keep)
    ensures Words(AsText(s), keep) == WordsIn(s)
  {
    match s {
      case LastGap(gap) =>
        WordsBehind(gap, "", keep);
        assert gap + "" == gap;
      case NextWord(gap, word, rest) =>
        WordsOfText(rest, keep);
        AfterWord(rest, keep);
        FirstWord(word, AsText(rest), keep);
        WordsBehind(gap, word + AsText(rest), keep);
    }
  }

  lemma {:induction false} RunIsWord(text: string, keep: char -> bool)
    ensures AllAre(text[..RunLength(text, keep)], keep)
    ensures RunLength(text, keep) < |text| ==> !keep(text[RunLength(text, keep)])
    ensures text != "" && keep(text[0]) ==> RunLength(text, keep) > 0
  {
    if text != "" && keep(text[0]) {
      RunIsWord(text[1..], keep);
      var n := RunLength(text[1..], keep);
      assert text[..n + 1] == [text[0]] + text[1..][..n];
    }
  }

  /** And every text is spelled in some way. */
  lemma {:induction false} Spell(text: string, keep: char -> bool) returns (s: Spelled)
    ensures AsText(s) == text && WellSpelled(s, keep)
    ensures s.gap == "" <==> text == "" || keep(text[0])
    decreases |text|
  {
    if text == "" {
      s := LastGap("");
    } else if keep(text[0]) {
      var n := RunLength(text, keep);
      RunIsWord(text, keep);
      var rest := Spell(text[n..], keep);
      s := NextWord("", text[..n], rest);
      BeginsWithWord(text, n, rest, keep);
    } else {
      var rest := Spell(text[1..], keep);
      s := OneMoreInGap(text[0], rest, keep);
      assert text == [text[0]] + text[1..];
    }
  }

  lemma BeginsWithWord(text: string, n: nat, rest: Spelled, keep: char -> bool)
    requires 0 < n <= |text| && AllAre(text[..n], keep) && AsText(rest) == text[n..] && WellSpelled(rest, keep)
    requires rest.gap == "" <==> n == |text| || keep(text[n])
    requires n < |text| ==> !keep(text[n])
    ensures AsText(NextWord("", text[..n], rest)) == text && WellSpelled(NextWord("", text[..n], rest), keep)
  {
    assert "" + (text[..n] + text[n..]) == text;
  }

  lemma OneMoreInGap(c: char, s: Spelled, keep: char -> bool) returns (t: Spelled)
    requires WellSpelled(s, keep) && !keep(c)
    ensures WellSpelled(t, keep) && AsText(t) == [c] + AsText(s) && t.gap == [c] + s.gap
  {
    if s.NextWord? {
      t := NextWord([c] + s.gap, s.word, s.rest);
      Regroup([c], s.gap, s.word + AsText(s.rest));
    } else {
      t := LastGap([c] + s.gap);
    }
  }

  /** The capitals and the small letters correspond in alphabetical order; nothing else changes. */
  lemma Letters(i: nat, c: char)
    ensures i < 26 ==> LowerChar((65 + i) as char) == (97 + i) as char
    ensures i < 26 ==> UpperChar((97 + i) as char) == (65 + i) as char
    ensures !('A' <= c <= 'Z') ==> LowerChar(c) == c
    ensures !('a' <= c <= 'z') ==> UpperChar(c) == c
  {
  }

  lemma LowerConcat(a: string, b: string)
    ensures Lower(a + b) == Lower(a) + Lower(b)
  {
  }

  function LowerAll(words: seq<string>): (lowered: seq<string>)
    ensures |lowered| == |words|
  {
    seq(|words|, i requires 0 <= i < |words| => Lower(words[i]))
  }

  function Lowered(s: Spelled): Spelled {
    match s
    case LastGap(gap) => LastGap(Lower(gap))
    case NextWord(gap, word, rest) => NextWord(Lower(gap), Lower(word), Lowered(rest))
  }

  lemma {:induction false} LowerText(s: Spelled)
    ensures Lower(AsText(s)) == AsText(Lowered(s)) && WordsIn(Lowered(s)) == LowerAll(WordsIn(s))
  {
    if s.NextWord? {
      LowerText(s.rest);
      LowerConcat(s.gap, s.word + AsText(s.rest));
      LowerConcat(s.word, AsText(s.rest));
    }
  }

  /** Small letters are spelled as the letters were, where capitals make up words as well. */
  lemma {:induction false} LoweredIsSpelled(s: Spelled, typed: char -> bool, keep: char -> bool)
    requires WellSpelled(s, typed) && forall c :: keep(LowerChar(c)) <==> typed(c)
    ensures WellSpelled(Lowered(s), keep)
  {
    if s.NextWord? {
      LoweredIsSpelled(s.rest, typed, keep);
    }
  }

  // ---------- counting ----------

  lemma OneMoreCounted(n: nat, counted: nat -> bool)
    ensures |set k: nat | k < n + 1 && counted(k)| == |set k: nat | k < n && counted(k)| + (if counted(n) then 1 else 0)
  {
    assert (set k: nat | k < n + 1 && counted(k))
        == (set k: nat | k < n && counted(k)) + (if counted(n) then {n} else {});
  }

  // ---------- decimal numerals ----------

  predicate AllDigits(s: string) {
    forall i :: 0 <= i < |s| ==> IsDigit(s[i])
  }

  function DigitChar(d: nat): (c: char)
    requires d < 10
    ensures IsDigit(c) && DigitValue(c) == d
  {
    (d + 48) as char
  }

  function DigitValue(c: char): nat
    requires IsDigit(c)
  {
    c as int - 48
  }

  /** The decimal numeral of n, without leading zeros. */
  function Digits(n: nat): (s: string)
    ensures s != "" && AllDigits(s)
  {
    if n < 10 then [DigitChar(n)] else Digits(n / 10) + [DigitChar(n % 10)]
  }

  /** The number a string of digits denotes. */
  function Value(s: string): nat
    requires AllDigits(s)
  {
    if s == "" then 0 else 10 * Value(s[..|s| - 1]) + DigitValue(s[|s| - 1])
  }

  /** At least `width` digits: n with zeros in front. */
  function Padded(n: nat, width: nat): (s: string)
    ensures AllDigits(s) && |s| >= width
  {
    Zeros(width - |Digits(n)|) + Digits(n)
  }

  function Zeros(n: int): (s: string)
    ensures AllDigits(s) && |s| == if n < 0 then 0 else n
  {
    if n <= 0 then "" else Zeros(n - 1) + "0"
  }

  lemma {:induction false} ValueOfDigits(n: nat)
    ensures Value(Digits(n)) == n
  {
    if n >= 10 {
      ValueOfDigits(n / 10);
      assert Digits(n)[..|Digits(n)| - 1] == Digits(n / 10);
    }
  }

  /** Appending a digit appends it to the number. */
  lemma ValueSnoc(s: string, c: char)
    requires AllDigits(s) && IsDigit(c)
    ensures AllDigits(s + [c]) && Value(s + [c]) == 10 * Value(s) + DigitValue(c)
  {
  }

  lemma {:induction false} ValueOfZerosThen(k: int, s: string)
    requires AllDigits(s)
    ensures AllDigits(Zeros(k) + s) && Value(Zeros(k) + s) == Value(s)
  {
    if s != "" {
      var init, last := s[..|s| - 1], s[|s| - 1];
      ValueOfZerosThen(k, init);
      ValueSnoc(Zeros(k) + init, last);
      assert Zeros(k) + s == (Zeros(k) + init) + [last];
    } else if k > 0 {
      ValueOfZerosThen(k - 1, "");
      ValueSnoc(Zeros(k - 1), '0');
      assert Zeros(k) + s == Zeros(k - 1) + "0";
      assert Zeros(k - 1) + "" == Zeros(k - 1);
    }
  }

  lemma ValueOfPadded(n: nat, width: nat)
    ensures Value(Padded(n, width)) == n
  {
    ValueOfDigits(n);
    ValueOfZerosThen(width - |Digits(n)|, Digits(n));
  }
}
