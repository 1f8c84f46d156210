/** Reading prices off a page: `to_decimal` and `_money_str` (app/catalog_sync/extractors.py). */
module Numbers {
  import opened Text
  import opened Money

  /** A price as a page or a feed supplies it. */
  datatype Raw = Missing | Number(d: Dec) | Written(text: string)

  predicate IsSeparator(c: char) {
    c == '.' || c == ','
  }

  predicate IsNumberChar(c: char) {
    IsDigit(c) || IsSeparator(c)
  }

  function Remove(s: string, c: char): string {
    if s == "" then "" else (if s[0] == c then "" else [s[0]]) + Remove(s[1..], c)
  }

  function Replace(s: string, c: char, sub: char): string {
    seq(|s|, i requires 0 <= i < |s| => if s[i] == c then sub else s[i])
  }

  /** The last position of c in s, or -1. */
  function LastIndex(s: string, c: char): (r: int)
    ensures -1 <= r < |s|
    ensures r >= 0 ==> s[r] == c
    ensures forall k :: r < k < |s| ==> s[k] != c
  {
    if s == "" then -1
    else if s[|s| - 1] == c then |s| - 1
    else LastIndex(s[..|s| - 1], c)
  }

  /** The first run of digits and separators that starts with a digit. */
  function FirstRun(s: string): string {
    if s == "" then ""
    else if IsDigit(s[0]) then s[..RunLength(s, IsNumberChar)]
    else FirstRun(s[1..])
  }

  function ParseDecimal(s: string): Option<Dec> {
    var point := LastIndex(s, '.');
    if point < 0 then
      if s != "" && AllDigits(s) then Some(Dec(Value(s), 0)) else None
    else
      var all := s[..point] + s[point + 1..];
      if all != "" && AllDigits(all) then Some(Dec(Value(all), |s| - point - 1)) else None
  }

  function ReadRun(s: string): Option<Dec> {
    var comma, point := LastIndex(s, ','), LastIndex(s, '.');
    if comma >= 0 && point >= 0 then
      // whichever separator comes last is the decimal one
      ParseDecimal(if comma > point then Replace(Remove(s, '.'), ',', '.') else Remove(s, ','))
    else if comma >= 0 then
      var head, tail := s[..comma], s[comma + 1..];
      ParseDecimal(if |tail| in {1, 2} then Remove(head, ',') + "." + tail else Remove(s, ','))
    else
      ParseDecimal(s)
  }

  function ToDecimal(value: Raw): Option<Dec> {
    match value
    case Missing => None
    case Number(d) => if d.units >= 0 then Some(d) else None
    case Written(text) =>
      var run := FirstRun(Remove(text, ' '));
      if run == "" then None else ReadRun(TrimRight(run, IsSeparator))
  }

  /** Cents, rounded half to even. */
  function HalfEvenCents(d: Dec): nat
    requires d.units >= 0
  {
    if d.scale < 2 then d.units * Pow10(2 - d.scale) else HalfEven(d.units, Pow10(d.scale - 2))
  }

  function HalfEven(n: nat, p: nat): nat
    requires p > 0
  {
    var q, r := n / p, n % p;
    if 2 * r < p || (2 * r == p && q % 2 == 0) then q else q + 1
  }

  lemma HalfEvenIsNearest(n: nat, p: nat)
    requires p > 0
    ensures 0 <= 2 * (HalfEven(n, p) * p - n) + p <= 2 * p
    ensures p == 1 ==> HalfEven(n, p) == n
    ensures 2 * (HalfEven(n, p) * p - n) + p in {0, 2 * p} ==> HalfEven(n, p) % 2 == 0
  {
    var q, r := n / p, n % p;
    assert q * p + r == n;
    assert (q + 1) * p == q * p + p;
  }

  /** The cents of an amount are the nearest, and exact where two decimals are enough. */
  lemma CentsAreNearest(d: Dec)
    requires d.units >= 0
    ensures -0.005 <= Amount(Dec(HalfEvenCents(d), 2)) - Amount(d) <= 0.005
    ensures d.scale <= 2 ==> Amount(Dec(HalfEvenCents(d), 2)) == Amount(d)
  {
    if d.scale < 2 {
      SameAmount(d, 2 - d.scale);
    } else {
      var p := Pow10(d.scale - 2);
      HalfEvenIsNearest(d.units, p);
      HundredParts(d.scale);
      QuotientNear(HalfEvenCents(d), d.units, p);
    }
  }

  lemma HundredParts(scale: nat)
    requires scale >= 2
    ensures Pow10(scale) == 100 * Pow10(scale - 2) && Pow10(2) == 100
  {
  }

  lemma QuotientNear(c: nat, n: nat, p: nat)
    requires p > 0 && 0 <= 2 * (c * p - n) + p <= 2 * p
    ensures var off := c as real / 100.0 - n as real / (100 * p) as real;
            -0.005 <= off <= 0.005 && (c * p == n ==> off == 0.0)
  {
    var x, q := n as real / (100 * p) as real, p as real;
    assert x * (100.0 * q) == n as real;
    assert (c * p) as real == c as real * q;
    OffBy(c as real, x, q, n as real);
  }

  lemma OffBy(c: real, x: real, q: real, n: real)
    requires q > 0.0 && x * (100.0 * q) == n && -q <= 2.0 * (c * q - n) <= q
    ensures -0.005 <= c / 100.0 - x <= 0.005 && (c * q == n ==> c / 100.0 == x)
  {
    var off := c / 100.0 - x;
    assert c * q - n == (100.0 * off) * q by {
      assert c == 100.0 * (off + x);
      assert (100.0 * (off + x)) * q == (100.0 * off) * q + x * (100.0 * q);
    }
    AtMost(200.0 * off, 1.0, q);
    AtMost(-200.0 * off, 1.0, q);
    AtMost(off, 0.0, if c * q == n then q else 0.0);
    AtMost(-off, 0.0, if c * q == n then q else 0.0);
  }

  lemma AtMost(x: real, y: real, q: real)
    requires x * q <= y * q
    ensures q > 0.0 ==> x <= y
  {
    assert q > 0.0 && x > y ==> (x - y) * q > 0.0;
  }

  function MoneyStr(d: Dec): string
    requires d.units >= 0
  {
    var cents := HalfEvenCents(d);
    Digits(cents / 100) + "." + Padded(cents % 100, 2)
  }

  // ---------- how amounts are written ----------

  /** A whole number with `mark` between groups of three digits. */
  function Grouped(n: nat, mark: char): string {
    if n < 1000 then Digits(n) else Grouped(n / 1000, mark) + [mark] + Padded(n % 1000, 3)
  }

  datatype Style = Plain(point: char) | US | EU

  predicate Understood(style: Style) {
    style.Plain? ==> IsSeparator(style.point)
  }

  /** An amount in cents: "1299.00" or "1299,00", "1,299.00", "1.299,00". */
  function InStyle(cents: nat, style: Style): string {
    Parts(cents / 100, cents % 100, style)
  }

  function Parts(whole: nat, cents: nat, style: Style): string {
    match style
    case Plain(point) => Digits(whole) + [point] + Padded(cents, 2)
    case US => Grouped(whole, ',') + "." + Padded(cents, 2)
    case EU => Grouped(whole, '.') + "," + Padded(cents, 2)
  }

  /** What may surround the number: no digit before it, and after it, past any stray separators,
      anything but a digit. */
  ghost predicate Surrounds(prefix: string, suffix: string) {
    && (forall i :: 0 <= i < |prefix| ==> !IsDigit(prefix[i]))
    && var after := Remove(suffix, ' ');
       var n := RunLength(after, IsSeparator);
       n == |after| || !IsDigit(after[n])
  }

  /** Digits and separators, beginning and ending with a digit. */
  ghost predicate IsNumberText(s: string) {
    && s != "" && IsDigit(s[0]) && IsDigit(s[|s| - 1])
    && forall i :: 0 <= i < |s| ==> IsNumberChar(s[i])
  }

  // ---------- small facts about the string functions ----------

  lemma RemoveCons(x: char, s: string, c: char)
    ensures Remove([x] + s, c) == (if x == c then "" else [x]) + Remove(s, c)
  {
  }

  lemma {:induction false} RemoveConcat(a: string, b: string, c: char)
    ensures Remove(a + b, c) == Remove(a, c) + Remove(b, c)
  {
    if a == "" {
      assert a + b == b;
    } else {
      var first := if a[0] == c then "" else [a[0]];
      RemoveConcat(a[1..], b, c);
      RemoveCons(a[0], a[1..] + b, c);
      assert [a[0]] + a[1..] == a;
      Regroup([a[0]], a[1..], b);
      Regroup(first, Remove(a[1..], c), Remove(b, c));
    }
  }

  lemma {:induction false} RemoveNothing(s: string, c: char)
    requires c !in s
    ensures Remove(s, c) == s
  {
    if s != "" {
      RemoveNothing(s[1..], c);
    }
  }

  lemma {:induction false} RemoveSubset(s: string, c: char)
    ensures forall x :: x in Remove(s, c) ==> x in s
  {
    if s != "" {
      RemoveSubset(s[1..], c);
    }
  }

  lemma {:induction false} RunIs(body: string, rest: string)
    requires forall i :: 0 <= i < |body| ==> IsNumberChar(body[i])
    requires rest == "" || !IsNumberChar(rest[0])
    ensures RunLength(body + rest, IsNumberChar) == |body|
  {
    if body == "" {
      assert body + rest == rest;
    } else {
      RunIs(body[1..], rest);
      assert (body + rest)[1..] == body[1..] + rest;
    }
  }

  lemma {:induction false} FirstRunIs(prefix: string, body: string, rest: string)
    requires forall i :: 0 <= i < |prefix| ==> !IsDigit(prefix[i])
    requires body != "" && IsDigit(body[0]) && forall i :: 0 <= i < |body| ==> IsNumberChar(body[i])
    requires rest == "" || !IsNumberChar(rest[0])
    ensures FirstRun(prefix + body + rest) == body
  {
    if prefix == "" {
      assert prefix + body + rest == body + rest;
      RunIs(body, rest);
    } else {
      FirstRunIs(prefix[1..], body, rest);
      assert (prefix + body + rest)[1..] == prefix[1..] + body + rest;
    }
  }

  lemma NoDigits(prefix: string)
    requires forall i :: 0 <= i < |prefix| ==> !IsDigit(prefix[i])
    ensures forall i :: 0 <= i < |Remove(prefix, ' ')| ==> !IsDigit(Remove(prefix, ' ')[i])
  {
  }

  lemma NoBlanks(prefix: string, body: string, suffix: string)
    requires ' ' !in body
    ensures Remove(prefix + body + suffix, ' ') == Remove(prefix, ' ') + body + Remove(suffix, ' ')
  {
    RemoveConcat(prefix + body, suffix, ' ');
    RemoveConcat(prefix, body, ' ');
    RemoveNothing(body, ' ');
  }

  lemma {:induction false} RunStops(s: string, keep: char -> bool)
    ensures var n := RunLength(s, keep);
            (forall i :: 0 <= i < n ==> keep(s[i])) && (n == |s| || !keep(s[n]))
  {
    if s != "" && keep(s[0]) {
      RunStops(s[1..], keep);
      assert forall i :: 1 <= i < |s| ==> s[i] == s[1..][i - 1];
    }
  }

  lemma {:induction false} TrimsSeparators(body: string, marks: string)
    requires body != "" && IsDigit(body[|body| - 1])
    requires forall i :: 0 <= i < |marks| ==> IsSeparator(marks[i])
    ensures TrimRight(body + marks, IsSeparator) == body
  {
    if marks == "" {
      assert body + marks == body;
    } else {
      var init := marks[..|marks| - 1];
      TrimsSeparators(body, init);
      assert (body + marks)[..|body + marks| - 1] == body + init;
    }
  }

  /** What follows the number splits into stray separators and text that cannot continue it. */
  lemma MarksThenRest(after: string) returns (marks: string, rest: string)
    requires var n := RunLength(after, IsSeparator); n == |after| || !IsDigit(after[n])
    ensures after == marks + rest
    ensures forall i :: 0 <= i < |marks| ==> IsSeparator(marks[i])
    ensures rest == "" || !IsNumberChar(rest[0])
  {
    var n := RunLength(after, IsSeparator);
    RunStops(after, IsSeparator);
    marks, rest := after[..n], after[n..];
  }

  /** The same once blanks are gone: what precedes the number and what follows it drop off. */
  lemma CleanReads(before: string, body: string, after: string)
    requires forall i :: 0 <= i < |before| ==> !IsDigit(before[i])
    requires IsNumberText(body)
    requires var n := RunLength(after, IsSeparator); n == |after| || !IsDigit(after[n])
    ensures var run := FirstRun(before + body + after);
            run != "" && TrimRight(run, IsSeparator) == body
  {
    var marks, rest := MarksThenRest(after);
    MarkedRun(before, body, marks, rest);
    TrimsSeparators(body, marks);
    Regroup(before + body, marks, rest);
    Regroup(before, body, marks);
  }

  /** Behind any currency mark, and before anything that does not continue it, the reader sees
      just the number. */
  lemma ReadsBody(prefix: string, body: string, suffix: string)
    requires Surrounds(prefix, suffix)
    requires IsNumberText(body)
    ensures ToDecimal(Written(prefix + body + suffix)) == ReadRun(body)
  {
    NoBlanks(prefix, body, suffix);
    NoDigits(prefix);
    CleanReads(Remove(prefix, ' '), body, Remove(suffix, ' '));
  }

  lemma MarkedRun(before: string, body: string, marks: string, rest: string)
    requires forall i :: 0 <= i < |before| ==> !IsDigit(before[i])
    requires IsNumberText(body) && forall i :: 0 <= i < |marks| ==> IsSeparator(marks[i])
    requires rest == "" || !IsNumberChar(rest[0])
    ensures FirstRun(before + (body + marks) + rest) == body + marks
  {
    FirstRunIs(before, body + marks, rest);
  }

  lemma PaddedTwo(n: nat)
    requires n < 100
    ensures Padded(n, 2) == [DigitChar(n / 10), DigitChar(n % 10)]
  {
    if n < 10 {
      assert Zeros(1) == Zeros(0) + "0" == "0";
    } else {
      assert Digits(n / 10) == [DigitChar(n / 10)];
      assert Zeros(0) == "";
    }
  }

  lemma PaddedThree(n: nat)
    requires n < 1000
    ensures Padded(n, 3) == [DigitChar(n / 100), DigitChar(n / 10 % 10), DigitChar(n % 10)]
  {
    if n < 100 {
      PaddedTwo(n);
      if n < 10 {
        assert Zeros(2) == Zeros(1) + "0" && Zeros(1) == Zeros(0) + "0" == "0";
      } else {
        assert Digits(n / 10) == [DigitChar(n / 10)];
        assert Zeros(1) == Zeros(0) + "0" == "0";
      }
    } else {
      assert n / 10 / 10 == n / 100;
      assert Digits(n / 100) == [DigitChar(n / 100)];
      assert Digits(n / 10) == Digits(n / 100) + [DigitChar(n / 10 % 10)];
      assert Zeros(0) == "";
    }
  }

  lemma DigitsStep(n: nat)
    requires n >= 10
    ensures Digits(n) == Digits(n / 10) + [DigitChar(n % 10)]
  {
  }

  lemma ThreeDigits(n: nat)
    ensures n / 10 / 10 == n / 100 && n / 100 / 10 == n / 1000
    ensures n % 10 == n % 1000 % 10 && n / 10 % 10 == n % 1000 / 10 % 10 && n / 100 % 10 == n % 1000 / 100
  {
  }

  lemma DigitsSplit(n: nat)
    requires n >= 1000
    ensures Digits(n) == Digits(n / 1000) + Padded(n % 1000, 3)
  {
    ThreeDigits(n);
    DigitsStep(n);
    DigitsStep(n / 10);
    DigitsStep(n / 100);
    PaddedThree(n % 1000);
  }

  /** Grouping only inserts marks, and only from a thousand up. */
  lemma {:induction false} GroupedRemoves(n: nat, mark: char)
    requires IsSeparator(mark)
    ensures Remove(Grouped(n, mark), mark) == Digits(n)
  {
    if n < 1000 {
      RemoveNothing(Digits(n), mark);
    } else {
      GroupedRemoves(n / 1000, mark);
      RemoveOwnMark(Grouped(n / 1000, mark), mark, Padded(n % 1000, 3));
      DigitsSplit(n);
    }
  }

  lemma RemoveOwnMark(g: string, mark: char, c: string)
    requires mark !in c
    ensures Remove(g + [mark] + c, mark) == Remove(g, mark) + c
  {
    RemoveConcat(g + [mark], c, mark);
    RemoveConcat(g, [mark], mark);
    RemoveNothing(c, mark);
    RemoveOne(mark);
    assert Remove(g, mark) + "" == Remove(g, mark);
  }

  lemma RemoveOne(mark: char)
    ensures Remove([mark], mark) == ""
  {
  }

  ghost predicate OnlyDigitsAnd(s: string, mark: char) {
    forall i :: 0 <= i < |s| ==> IsDigit(s[i]) || s[i] == mark
  }

  lemma {:induction false} GroupedShape(n: nat, mark: char)
    requires IsSeparator(mark)
    ensures IsNumberText(Grouped(n, mark)) && OnlyDigitsAnd(Grouped(n, mark), mark)
    ensures mark in Grouped(n, mark) <==> n >= 1000
  {
    if n >= 1000 {
      var high, low := Grouped(n / 1000, mark), Padded(n % 1000, 3);
      GroupedShape(n / 1000, mark);
      assert (high + [mark] + low)[|high|] == mark;
    }
  }

  lemma GroupedFacts(n: nat, mark: char)
    requires IsSeparator(mark)
    ensures Remove(Grouped(n, mark), mark) == Digits(n)
    ensures IsNumberText(Grouped(n, mark)) && OnlyDigitsAnd(Grouped(n, mark), mark)
    ensures mark in Grouped(n, mark) <==> n >= 1000
  {
    GroupedRemoves(n, mark);
    GroupedShape(n, mark);
  }

  // ---------- the three shapes of a run ----------

  lemma RunWithoutComma(s: string)
    requires ',' !in s
    ensures ReadRun(s) == ParseDecimal(s)
  {
  }

  lemma NotIn(head: string, mark: char, tail: string, c: char)
    requires c !in head && c !in tail && c != mark
    ensures LastIndex(head + [mark] + tail, c) == -1
  {
  }

  lemma RunWithLastComma(head: string, tail: string)
    requires '.' !in head && '.' !in tail && ',' !in tail
    ensures ReadRun(head + "," + tail) ==
            if |tail| in {1, 2} then ParseDecimal(Remove(head, ',') + "." + tail)
            else ParseDecimal(Remove(head + "," + tail, ','))
  {
    LastMark(head, ',', tail);
    NotIn(head, ',', tail, '.');
  }

  lemma BothMarks(g: string, point: char, mark: char, c: string)
    requires mark in g && point !in c && mark !in c && mark != point
    ensures 0 <= LastIndex(g + [point] + c, mark) < LastIndex(g + [point] + c, point)
  {
    LastMark(g, point, c);
    var s := g + [point] + c;
    var i :| 0 <= i < |g| && g[i] == mark;
    assert s[i] == mark;
    assert forall k :: |g| < k < |s| ==> s[k] in c;
  }

  lemma RunWithBoth(g: string, point: char, mark: char, c: string)
    requires mark in g && IsSeparator(point) && AllDigits(c) && IsSeparator(mark) && mark != point
    ensures var s := g + [point] + c;
            ReadRun(s) == ParseDecimal(if point == ',' then Replace(Remove(s, '.'), ',', '.') else Remove(s, ','))
  {
    BothMarks(g, point, mark, c);
  }

  lemma LastMark(head: string, mark: char, tail: string)
    requires mark !in tail
    ensures var s := head + [mark] + tail;
            && LastIndex(s, mark) == |head|
            && s[..|head|] == head && s[|head| + 1..] == tail
  {
    var s := head + [mark] + tail;
    assert s[|head|] == mark;
  }

  lemma ParsesCents(whole: nat, cents: nat)
    requires cents < 100
    ensures ParseDecimal(Digits(whole) + "." + Padded(cents, 2)) == Some(Dec(100 * whole + cents, 2))
  {
    PaddedTwo(cents);
    var w, c := Digits(whole), Padded(cents, 2);
    var s := w + "." + c;
    LastMark(w, '.', c);
    ValueSnoc(w, c[0]);
    ValueSnoc(w + [c[0]], c[1]);
    assert w + c == w + [c[0]] + [c[1]];
    ValueOfDigits(whole);
  }

  lemma ParsesWhole(n: nat)
    ensures ParseDecimal(Digits(n)) == Some(Dec(n, 0))
  {
    ValueOfDigits(n);
  }

  lemma ReadsPlain(whole: nat, cents: nat, point: char)
    requires cents < 100 && IsSeparator(point)
    ensures ReadRun(Digits(whole) + [point] + Padded(cents, 2)) == Some(Dec(100 * whole + cents, 2))
  {
    PaddedTwo(cents);
    ParsesCents(whole, cents);
    var w, c := Digits(whole), Padded(cents, 2);
    if point == ',' {
      RunWithLastComma(w, c);
      RemoveNothing(w, ',');
    } else {
      RunWithoutComma(w + "." + c);
    }
  }

  lemma RemoveMark(g: string, point: char, c: string, mark: char)
    requires mark != point && mark !in c
    ensures Remove(g + [point] + c, mark) == Remove(g, mark) + [point] + c
  {
    RemoveConcat(g + [point], c, mark);
    RemoveConcat(g, [point], mark);
    RemoveNothing([point], mark);
    RemoveNothing(c, mark);
  }

  lemma CommaToPoint(whole: string, c: string)
    requires AllDigits(whole) && AllDigits(c)
    ensures Replace(whole + "," + c, ',', '.') == whole + "." + c
  {
  }

  lemma ReadsUS(whole: nat, cents: nat)
    requires cents < 100
    ensures ReadRun(Grouped(whole, ',') + "." + Padded(cents, 2)) == Some(Dec(100 * whole + cents, 2))
  {
    var g, c := Grouped(whole, ','), Padded(cents, 2);
    GroupedFacts(whole, ',');
    if whole < 1000 {
      ReadsPlain(whole, cents, '.');
    } else {
      ParsesCents(whole, cents);
      RemoveMark(g, '.', c, ',');
      RunWithBoth(g, '.', ',', c);
    }
  }

  lemma ReadsEU(whole: nat, cents: nat)
    requires cents < 100
    ensures ReadRun(Grouped(whole, '.') + "," + Padded(cents, 2)) == Some(Dec(100 * whole + cents, 2))
  {
    var g, c := Grouped(whole, '.'), Padded(cents, 2);
    GroupedFacts(whole, '.');
    if whole < 1000 {
      ReadsPlain(whole, cents, ',');
    } else {
      ParsesCents(whole, cents);
      RemoveMark(g, ',', c, '.');
      CommaToPoint(Digits(whole), c);
      RunWithBoth(g, ',', '.', c);
    }
  }

  lemma IsANumber(head: string, point: char, cents: nat)
    requires cents < 100 && IsSeparator(point)
    requires IsNumberText(head)
    ensures IsNumberText(head + [point] + Padded(cents, 2))
  {
  }

  lemma PartsAreANumber(whole: nat, cents: nat, style: Style)
    requires Understood(style) && cents < 100
    ensures IsNumberText(Parts(whole, cents, style))
  {
    match style {
      case Plain(point) =>
        assert IsNumberText(Digits(whole));
        IsANumber(Digits(whole), point, cents);
      case US =>
        GroupedShape(whole, ',');
        IsANumber(Grouped(whole, ','), '.', cents);
      case EU =>
        GroupedShape(whole, '.');
        IsANumber(Grouped(whole, '.'), ',', cents);
    }
  }

  lemma ReadsParts(whole: nat, cents: nat, style: Style)
    requires Understood(style) && cents < 100
    ensures ReadRun(Parts(whole, cents, style)) == Some(Dec(100 * whole + cents, 2))
  {
    match style {
      case Plain(point) => ReadsPlain(whole, cents, point);
      case US => ReadsUS(whole, cents);
      case EU => ReadsEU(whole, cents);
    }
  }

  lemma PartsRoundTrip(whole: nat, cents: nat, style: Style, prefix: string, suffix: string)
    requires Understood(style) && cents < 100 && Surrounds(prefix, suffix)
    ensures ToDecimal(Written(prefix + Parts(whole, cents, style) + suffix)) == Some(Dec(100 * whole + cents, 2))
  {
    var body := Parts(whole, cents, style);
    PartsAreANumber(whole, cents, style);
    ReadsParts(whole, cents, style);
    ReadsBody(prefix, body, suffix);
  }

  // ---------- what is no text, or no number ----------

  /** A number is taken as it is, unless it is negative. */
  lemma NumbersAreKept(d: Dec)
    ensures Amount(d) >= 0.0 ==> ToDecimal(Number(d)) == Some(d)
    ensures Amount(d) < 0.0 ==> ToDecimal(Number(d)) == None
    ensures ToDecimal(Missing) == None
  {
    assert Amount(d) * Pow10(d.scale) as real == d.units as real;
  }

  lemma {:induction false} NoRun(s: string)
    requires forall i :: 0 <= i < |s| ==> !IsDigit(s[i])
    ensures FirstRun(s) == ""
  {
    if s != "" {
      NoRun(s[1..]);
    }
  }

  /** Text without a digit is no number. */
  lemma NothingToRead(text: string)
    requires forall i :: 0 <= i < |text| ==> !IsDigit(text[i])
    ensures ToDecimal(Written(text)) == None
  {
    NoDigits(text);
    NoRun(Remove(text, ' '));
  }

  // ---------- any text at all ----------

  /** Without its blanks the text has this number first: no digit before it, and after it, past any
      stray separators, anything but a digit. */
  ghost predicate FirstNumber(text: string, body: string) {
    IsNumberText(body) && exists before, after :: Remove(text, ' ') == before + body + after && Around(before, after)
  }

  ghost predicate Around(before: string, after: string) {
    && (forall i :: 0 <= i < |before| ==> !IsDigit(before[i]))
    && var n := RunLength(after, IsSeparator);
       n == |after| || !IsDigit(after[n])
  }

  lemma FirstNumberIsRead(text: string, body: string)
    requires FirstNumber(text, body)
    ensures ToDecimal(Written(text)) == ReadRun(body)
  {
    var before, after :| Remove(text, ' ') == before + body + after && Around(before, after);
    CleanReads(before, body, after);
  }

  /** The text before the run, and the text after it. */
  ghost predicate Splits(s: string, before: string, run: string, after: string) {
    && s == before + run + after && (forall i :: 0 <= i < |before| ==> !IsDigit(before[i]))
    && run != "" && IsDigit(run[0]) && AllAre(run, IsNumberChar)
    && (after == "" || !IsNumberChar(after[0]))
  }

  lemma SplitFurther(c: char, s: string, before: string, run: string, after: string)
    requires Splits(s, before, run, after) && !IsDigit(c)
    ensures Splits([c] + s, [c] + before, run, after)
  {
    Regroup([c], before, run);
    Regroup([c], before + run, after);
  }

  lemma {:induction false} RunSplits(s: string) returns (before: string, after: string)
    requires exists i :: 0 <= i < |s| && IsDigit(s[i])
    ensures Splits(s, before, FirstRun(s), after)
  {
    if IsDigit(s[0]) {
      var n := RunLength(s, IsNumberChar);
      RunStops(s, IsNumberChar);
      before, after := "", s[n..];
      assert s == "" + s[..n] + s[n..];
    } else {
      var i :| 0 <= i < |s| && IsDigit(s[i]);
      assert s[1..][i - 1] == s[i];
      before, after := RunSplits(s[1..]);
      SplitFurther(s[0], s[1..], before, FirstRun(s[1..]), after);
      before := [s[0]] + before;
      assert s == [s[0]] + s[1..];
    }
  }

  lemma {:induction false} MarksOff(run: string) returns (marks: string)
    requires run != "" && IsDigit(run[0]) && AllAre(run, IsNumberChar)
    ensures run == TrimRight(run, IsSeparator) + marks && AllAre(marks, IsSeparator)
    ensures IsNumberText(TrimRight(run, IsSeparator))
  {
    if IsSeparator(run[|run| - 1]) {
      marks := MarksOff(run[..|run| - 1]);
      marks := marks + [run[|run| - 1]];
    } else {
      marks := "";
    }
  }

  /** Every text with a digit has such a number. */
  lemma HasFirstNumber(text: string) returns (body: string)
    requires exists i :: 0 <= i < |text| && IsDigit(text[i])
    ensures FirstNumber(text, body)
  {
    var i :| 0 <= i < |text| && IsDigit(text[i]);
    RemoveKeeps(text, ' ', text[i]);
    var s := Remove(text, ' ');
    var before, after := RunSplits(s);
    var marks := MarksOff(FirstRun(s));
    body := TrimRight(FirstRun(s), IsSeparator);
    RunOfWord(marks, after, IsSeparator);
    Regroup(before, body, marks);
    Regroup(before + body, marks, after);
    assert Around(before, marks + after);
  }

  lemma {:induction false} RemoveKeeps(s: string, c: char, x: char)
    ensures x in Remove(s, c) <==> x in s && x != c
  {
    if s != "" {
      RemoveKeeps(s[1..], c, x);
      assert s == [s[0]] + s[1..];
    }
  }

  /** The digits of a number, without its marks. */
  function JustDigits(s: string): string {
    Remove(Remove(s, ','), '.')
  }

  predicate OnlyDigitsOr(s: string, mark: char) {
    forall x :: x in s ==> IsDigit(x) || x == mark
  }

  lemma AllDigitsIn(s: string, mark: char)
    requires OnlyDigitsOr(s, mark) && !IsDigit(mark)
    ensures AllDigits(s) <==> mark !in s
  {
  }

  lemma WithoutMark(s: string, mark: char, other: char)
    requires AllAre(s, IsNumberChar) && IsSeparator(mark) && IsSeparator(other) && mark != other
    ensures OnlyDigitsOr(Remove(s, mark), other) && (other in Remove(s, mark) <==> other in s)
  {
    RemoveKeeps(s, mark, other);
    forall x | x in Remove(s, mark)
      ensures IsDigit(x) || x == other
    {
      RemoveKeeps(s, mark, x);
    }
  }

  lemma ParsesPoint(head: string, tail: string)
    requires OnlyDigitsOr(head, '.') && tail != "" && AllDigits(tail)
    ensures '.' in head ==> ParseDecimal(head + "." + tail) == None
    ensures '.' !in head ==>
              AllDigits(head + tail) && ParseDecimal(head + "." + tail) == Some(Dec(Value(head + tail), |tail|))
  {
    LastMark(head, '.', tail);
    AllDigitsIn(head, '.');
    if '.' in head {
      var i :| 0 <= i < |head| && head[i] == '.';
      assert (head + tail)[i] == '.';
    }
  }

  /** What a number with a last mark denotes: its digits, the last of them behind the decimal point.
      There are none behind it if the number has commas only and the last comma is not followed by one
      or two digits.  It is no number if the mark that is taken for the point comes twice. */
  ghost predicate Denotes(r: Option<Dec>, head: string, mark: char, tail: string) {
    if mark in head && (mark == '.' || '.' in head) then r == None
    else && AllDigits(JustDigits(head) + tail)
         && r == Some(Dec(Value(JustDigits(head) + tail),
                          if mark == ',' && '.' !in head && |tail| !in {1, 2} then 0 else |tail|))
  }

  lemma PointLast(head: string, tail: string)
    requires IsNumberText(head) && tail != "" && AllDigits(tail)
    ensures Denotes(ReadRun(head + "." + tail), head, '.', tail)
  {
    var h := Remove(head, ',');
    WithoutMark(head, ',', '.');
    ParsesPoint(h, tail);
    if ',' in head {
      RunWithBoth(head, '.', ',', tail);
      RemoveMark(head, '.', tail, ',');
    } else {
      RemoveNothing(head, ',');
      RunWithoutComma(head + "." + tail);
    }
    if '.' !in h {
      RemoveNothing(h, '.');
    }
  }

  lemma CommaAndPoints(head: string, tail: string)
    requires IsNumberText(head) && '.' in head && tail != "" && AllDigits(tail)
    ensures Denotes(ReadRun(head + "," + tail), head, ',', tail)
  {
    var h := Remove(head, '.');
    CommaTaken(head, tail);
    WithoutMark(head, '.', ',');
    SwappedMarks(h);
    ParsesPoint(Replace(h, ',', '.'), tail);
    if ',' !in head {
      RemoveNothing(head, ',');
    }
  }

  lemma CommaTaken(head: string, tail: string)
    requires '.' in head && AllDigits(tail)
    ensures ReadRun(head + "," + tail) == ParseDecimal(Replace(Remove(head, '.'), ',', '.') + "." + tail)
  {
    RunWithBoth(head, ',', '.', tail);
    CommaTurned(head, tail);
  }

  lemma CommaTurned(head: string, tail: string)
    requires AllDigits(tail)
    ensures Replace(Remove(head + [','] + tail, '.'), ',', '.') == Replace(Remove(head, '.'), ',', '.') + "." + tail
  {
    RemoveMark(head, ',', tail, '.');
  }

  lemma SwappedMarks(h: string)
    requires OnlyDigitsOr(h, ',')
    ensures OnlyDigitsOr(Replace(h, ',', '.'), '.') && ('.' in Replace(h, ',', '.') <==> ',' in h)
    ensures ',' !in h ==> Replace(h, ',', '.') == h
  {
    var swapped := Replace(h, ',', '.');
    assert forall i :: 0 <= i < |h| ==> h[i] in h;
    if ',' in h {
      var i :| 0 <= i < |h| && h[i] == ',';
      assert swapped[i] == '.';
    } else {
      assert swapped == h;
    }
  }

  lemma CommasOnly(head: string, tail: string)
    requires IsNumberText(head) && '.' !in head && tail != "" && AllDigits(tail)
    ensures Denotes(ReadRun(head + "," + tail), head, ',', tail)
  {
    var h := Remove(head, ',');
    CommasTaken(head, tail);
    WithoutMark(head, ',', '.');
    RemoveNothing(h, '.');
    ParsesPoint(h, tail);
  }

  lemma CommasTaken(head: string, tail: string)
    requires '.' !in head && AllDigits(tail)
    ensures ReadRun(head + "," + tail)
         == ParseDecimal(if |tail| in {1, 2} then Remove(head, ',') + "." + tail else Remove(head, ',') + tail)
  {
    RunWithLastComma(head, tail);
    RemoveOwnMark(head, ',', tail);
  }

  /** So this is what every text with a marked number is read as. */
  lemma MarkedReads(text: string, head: string, mark: char, tail: string)
    requires FirstNumber(text, head + [mark] + tail)
    requires IsNumberText(head) && IsSeparator(mark) && tail != "" && AllDigits(tail)
    ensures Denotes(ToDecimal(Written(text)), head, mark, tail)
  {
    FirstNumberIsRead(text, head + [mark] + tail);
    if mark == '.' {
      PointLast(head, tail);
    } else if '.' in head {
      CommaAndPoints(head, tail);
    } else {
      CommasOnly(head, tail);
    }
  }

  /** And one with a number without marks. */
  lemma UnmarkedReads(text: string, digits: string)
    requires FirstNumber(text, digits) && AllDigits(digits)
    ensures ToDecimal(Written(text)) == Some(Dec(Value(digits), 0))
  {
    FirstNumberIsRead(text, digits);
  }

  // ---------- main results ----------

  /** Every amount in cents comes back from each of the four ways of writing it, whatever
      currency mark or unit surrounds it. */
  lemma RoundTrip(cents: nat, style: Style, prefix: string, suffix: string)
    requires Understood(style) && Surrounds(prefix, suffix)
    ensures ToDecimal(Written(prefix + InStyle(cents, style) + suffix)) == Some(Dec(cents, 2))
  {
    var whole, rest := cents / 100, cents % 100;
    assert cents == 100 * whole + rest;
    PartsRoundTrip(whole, rest, style, prefix, suffix);
  }

  /** What `_money_str` writes is read back as the amount rounded to cents; an amount that is
      in cents already comes back unchanged. */
  lemma MoneyStrRoundTrip(d: Dec)
    requires d.units >= 0
    ensures ToDecimal(Written(MoneyStr(d))) == Some(Dec(HalfEvenCents(d), 2))
    ensures d.scale == 2 ==> ToDecimal(Written(MoneyStr(d))) == ToDecimal(Number(d))
  {
    var cents := HalfEvenCents(d);
    if d.scale >= 2 {
      HalfEvenIsNearest(d.units, Pow10(d.scale - 2));
    }
    RoundTrip(cents, Plain('.'), "", "");
    assert "" + InStyle(cents, Plain('.')) + "" == MoneyStr(d);
  }

  /** A whole amount grouped with commas is read right, whatever its size. */
  lemma WholeUS(n: nat, prefix: string, suffix: string)
    requires Surrounds(prefix, suffix)
    ensures ToDecimal(Written(prefix + Grouped(n, ',') + suffix)) == Some(Dec(n, 0))
  {
    GroupedFacts(n, ',');
    ReadsBody(prefix, Grouped(n, ','), suffix);
    ReadsWholeUS(n);
  }

  lemma ReadsWholeUS(n: nat)
    ensures ReadRun(Grouped(n, ',')) == Some(Dec(n, 0))
  {
    var g := Grouped(n, ',');
    GroupedFacts(n, ',');
    ParsesWhole(n);
    if n < 1000 {
      RunWithoutComma(g);
    } else {
      PaddedThree(n % 1000);
      GroupedShape(n / 1000, ',');
      RunWithLastComma(Grouped(n / 1000, ','), Padded(n % 1000, 3));
    }
  }

  lemma ReadsWholeEU(n: nat)
    requires n >= 1000
    ensures ReadRun(Grouped(n, '.')) == if n < 1000000 then Some(Dec(n, 3)) else None
  {
    var high, low := Grouped(n / 1000, '.'), Padded(n % 1000, 3);
    GroupedShape(n, '.');
    RunWithoutComma(Grouped(n, '.'));
    PaddedThree(n % 1000);
    LastMark(high, '.', low);
    if n < 1000000 {
      DigitsSplit(n);
      ValueOfDigits(n);
    } else {
      GroupedShape(n / 1000, '.');
      NotAllDigits(high, low);
    }
  }

  lemma NotAllDigits(high: string, low: string)
    requires '.' in high
    ensures !AllDigits(high + low)
  {
    var i :| 0 <= i < |high| && high[i] == '.';
    assert (high + low)[i] == '.';
  }

  /** A whole amount grouped with points is read right only below a thousand: up to a million
      its last group is taken for decimals, and beyond that nothing is read. */
  lemma WholeEU(n: nat, prefix: string, suffix: string)
    requires Surrounds(prefix, suffix)
    ensures ToDecimal(Written(prefix + Grouped(n, '.') + suffix))
         == if n < 1000 then Some(Dec(n, 0)) else if n < 1000000 then Some(Dec(n, 3)) else None
  {
    GroupedFacts(n, '.');
    ReadsBody(prefix, Grouped(n, '.'), suffix);
    if n < 1000 {
      ParsesWhole(n);
    } else {
      ReadsWholeEU(n);
    }
  }

  /** So a European whole amount is worth what was written exactly when it needs no grouping. */
  lemma WholeEUExactly(n: nat, prefix: string, suffix: string)
    requires Surrounds(prefix, suffix)
    ensures var read := ToDecimal(Written(prefix + Grouped(n, '.') + suffix));
            (read.Some? && Amount(read.value) == n as real) <==> n < 1000
  {
    WholeEU(n, prefix, suffix);
    assert Pow10(0) == 1 && Pow10(1) == 10 && Pow10(2) == 100 && Pow10(3) == 1000;
    assert Amount(Dec(n, 0)) == n as real;
    assert Amount(Dec(n, 3)) == n as real / 1000.0;
  }
}
