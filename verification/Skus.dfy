/** SKUs for scraped products: `_make_sku` (app/catalog_sync/service.py). */
module Skus {
  import opened Text

  predicate InSku(c: char) {
    'A' <= c <= 'Z' || 'a' <= c <= 'z' || '0' <= c <= '9' || c == '.' || c == '_' || c == '-'
  }

  predicate OutsideSku(c: char) {
    !InSku(c)
  }

  /** Every run of other characters becomes one dash. */
  function Dashed(s: string): string
    decreases |s|
  {
    if s == "" then ""
    else if InSku(s[0]) then [s[0]] + Dashed(s[1..])
    else "-" + Dashed(s[1 + RunLength(s[1..], OutsideSku)..])
  }

  predicate IsDash(c: char) {
    c == '-'
  }

  function Trimmed(s: string): string {
    TrimRight(TrimLeft(s, IsDash), IsDash)
  }

  function Candidate(sku: string): string {
    Take(Upper(Trimmed(Dashed(sku))), 60)
  }

  /** A SKU that is tidy already: upper case, only SKU characters, no dash at either end, not too
      long. */
  predicate IsTidy(sku: string) {
    && |sku| <= 60
    && (forall i :: 0 <= i < |sku| ==> InSku(sku[i]) && !('a' <= sku[i] <= 'z'))
    && (sku != "" ==> !IsDash(sku[0]) && !IsDash(sku[|sku| - 1]))
  }

  lemma {:induction false} DashedKeeps(sku: string)
    requires forall i :: 0 <= i < |sku| ==> InSku(sku[i])
    ensures Dashed(sku) == sku
  {
    if sku != "" {
      DashedKeeps(sku[1..]);
    }
  }

  lemma {:induction false} DashedIsClean(sku: string)
    ensures forall i :: 0 <= i < |Dashed(sku)| ==> InSku(Dashed(sku)[i])
    decreases |sku|
  {
    if sku != "" {
      DashedIsClean(if InSku(sku[0]) then sku[1..] else sku[1 + RunLength(sku[1..], OutsideSku)..]);
    }
  }

  lemma {:induction false} TrimsAreParts(s: string)
    ensures forall i :: 0 <= i < |TrimLeft(s, IsDash)| ==> TrimLeft(s, IsDash)[i] in s
    ensures forall i :: 0 <= i < |TrimRight(s, IsDash)| ==> TrimRight(s, IsDash)[i] in s
    decreases |s|
  {
    if s != "" {
      TrimsAreParts(s[1..]);
      TrimsAreParts(s[..|s| - 1]);
    }
  }

  /** A shop's own SKU is kept as it is when it is tidy; and whatever the shop calls it, the
      candidate consists of SKU characters without lower case, at most sixty. */
  lemma CandidateIsTidied(sku: string)
    ensures IsTidy(sku) ==> Candidate(sku) == sku
    ensures |Candidate(sku)| <= 60
    ensures forall i :: 0 <= i < |Candidate(sku)| ==> InSku(Candidate(sku)[i]) && !('a' <= Candidate(sku)[i] <= 'z')
  {
    if IsTidy(sku) {
      TidyIsKept(sku);
    }
    TrimmedIsClean(sku);
    UpperIsClean(Trimmed(Dashed(sku)));
  }

  lemma UpperIsClean(s: string)
    requires forall i :: 0 <= i < |s| ==> InSku(s[i])
    ensures forall i :: 0 <= i < |Upper(s)| ==> InSku(Upper(s)[i]) && !('a' <= Upper(s)[i] <= 'z')
  {
  }

  lemma TidyIsKept(sku: string)
    requires IsTidy(sku)
    ensures Candidate(sku) == sku
  {
    DashedKeeps(sku);
    assert Upper(sku) == sku;
  }

  lemma TrimmedIsClean(sku: string)
    ensures forall i :: 0 <= i < |Trimmed(Dashed(sku))| ==> InSku(Trimmed(Dashed(sku))[i])
  {
    DashedIsClean(sku);
    TrimsAreParts(Dashed(sku));
    TrimsAreParts(TrimLeft(Dashed(sku), IsDash));
    var t := Trimmed(Dashed(sku));
    forall i | 0 <= i < |t|
      ensures InSku(t[i])
    {
      assert t[i] in TrimLeft(Dashed(sku), IsDash);
      assert t[i] in Dashed(sku);
    }
  }

  // ---------- what a candidate is made of ----------

  /** Letters, digits, the point and the underscore, by their codes. */
  predicate InPlainSku(c: char) {
    var code := c as int;
    48 <= code <= 57 || 65 <= code <= 90 || 97 <= code <= 122 || code == 46 || code == 95
  }

  predicate IsSkuWord(word: string) {
    word != "" && AllAre(word, InPlainSku)
  }

  lemma {:induction false} DashedWord(word: string, rest: string)
    requires AllAre(word, InPlainSku)
    ensures Dashed(word + rest) == word + Dashed(rest)
  {
    if word == "" {
      assert word + rest == rest;
    } else {
      DashedWord(word[1..], rest);
      assert (word + rest)[1..] == word[1..] + rest;
    }
  }

  lemma DashedGap(gap: string, rest: string)
    requires gap != "" && NoneIs(gap, InSku) && (rest == "" || InSku(rest[0]))
    ensures Dashed(gap + rest) == "-" + Dashed(rest)
  {
    RunOfWord(gap[1..], rest, OutsideSku);
    assert (gap + rest)[1..] == gap[1..] + rest && (gap + rest)[|gap|..] == rest;
  }

  lemma WordsFirst(words: seq<string>, gap: string)
    requires words != [] && forall i :: 0 <= i < |words| ==> IsSkuWord(words[i])
    ensures Join(words, gap) != "" && InPlainSku(Join(words, gap)[0])
  {
  }

  lemma DashedOneMore(word: string, gap: string, rest: string)
    requires AllAre(word, InPlainSku) && gap != "" && NoneIs(gap, InSku) && rest != "" && InSku(rest[0])
    ensures Dashed(word + (gap + rest)) == word + ("-" + Dashed(rest))
  {
    DashedGap(gap, rest);
    DashedWord(word, gap + rest);
  }

  lemma {:induction false} DashedWords(words: seq<string>, gap: string, after: string)
    requires gap != "" && NoneIs(gap, InSku) && words != [] && forall i :: 0 <= i < |words| ==> IsSkuWord(words[i])
    ensures Dashed(Join(words, gap) + after) == Join(words, "-") + Dashed(after)
  {
    if |words| == 1 {
      DashedWord(words[0], after);
    } else {
      var rest, joined := Join(words[1..], gap), Join(words[1..], "-");
      WordsFirst(words[1..], gap);
      DashedWords(words[1..], gap, after);
      DashedOneMore(words[0], gap, rest + after);
      AppendedTo(words[0], gap, rest, after);
      AppendedTo(words[0], "-", joined, Dashed(after));
    }
  }

  lemma AppendedTo(word: string, gap: string, rest: string, after: string)
    ensures word + gap + rest + after == word + (gap + (rest + after))
  {
  }

  /** What stands before the first word, or behind the last, becomes dashes. */
  lemma {:induction false} DashedOutside(gap: string, rest: string) returns (dashes: string)
    requires NoneIs(gap, InPlainSku) && (rest == "" || InPlainSku(rest[0]))
    ensures Dashed(gap + rest) == dashes + Dashed(rest) && AllAre(dashes, IsDash)
    decreases |gap|
  {
    if gap == "" {
      dashes := "";
      assert gap + rest == rest && "" + Dashed(rest) == Dashed(rest);
    } else {
      var r := if InSku(gap[0]) then 0 else RunLength(gap[1..], OutsideSku);
      OneDash(gap, rest, r);
      dashes := DashedOutside(gap[1 + r..], rest);
      Regroup("-", dashes, Dashed(rest));
      dashes := "-" + dashes;
    }
  }

  lemma OneDash(gap: string, rest: string, r: nat)
    requires gap != "" && !InPlainSku(gap[0]) && (rest == "" || InPlainSku(rest[0]))
    requires r == if InSku(gap[0]) then 0 else RunLength(gap[1..], OutsideSku)
    ensures Dashed(gap + rest) == "-" + Dashed(gap[1 + r..] + rest)
  {
    OutsideRun(gap[1..], rest);
    assert (gap + rest)[1..] == gap[1..] + rest && (gap + rest)[1 + r..] == gap[1 + r..] + rest;
  }

  lemma {:induction false} OutsideRun(gap: string, rest: string)
    requires rest == "" || InPlainSku(rest[0])
    ensures RunLength(gap + rest, OutsideSku) == RunLength(gap, OutsideSku)
  {
    if gap == "" {
      assert gap + rest == rest;
    } else {
      OutsideRun(gap[1..], rest);
      assert (gap + rest)[1..] == gap[1..] + rest;
    }
  }

  lemma {:induction false} NoDashAtEnds(words: seq<string>)
    requires words != [] && forall i :: 0 <= i < |words| ==> IsSkuWord(words[i])
    ensures var s := Join(words, "-"); s != "" && !IsDash(s[0]) && !IsDash(s[|s| - 1])
  {
    if |words| > 1 {
      NoDashAtEnds(words[1..]);
    }
  }

  /** Words of letters, digits, points and underscores come out in capitals with single dashes
      between them and none around them, whatever stood there, cut to sixty characters. */
  lemma CandidateOfWords(before: string, words: seq<string>, gap: string, after: string)
    requires words != [] && forall i :: 0 <= i < |words| ==> IsSkuWord(words[i])
    requires gap != "" && forall i :: 0 <= i < |gap| ==> !InPlainSku(gap[i]) && gap[i] != '-'
    requires NoneIs(before, InPlainSku) && NoneIs(after, InPlainSku)
    ensures Candidate(before + (Join(words, gap) + after)) == Take(Upper(Join(words, "-")), 60)
  {
    var s := Join(words, "-");
    WordsFirst(words, gap);
    var ahead := DashedOutside(before, Join(words, gap) + after);
    DashedWords(words, gap, after);
    var behind := DashedOutside(after, "");
    assert after + "" == after && behind + "" == behind;
    NoDashAtEnds(words);
    TrimsLeft(ahead, s + behind, IsDash);
    TrimsRight(s, behind, IsDash);
  }

  /** The n-th try: the base itself, then "-2", "-3", ... */
  function Try(base: string, n: nat): string {
    if n <= 1 then base else base + "-" + Digits(n)
  }

  lemma TriesDiffer(base: string, m: nat, n: nat)
    requires 1 <= m < n
    ensures Try(base, m) != Try(base, n)
  {
    if m > 1 && Try(base, m) == Try(base, n) {
      var k := |base| + 1;
      assert Try(base, m)[k..] == Digits(m) && Try(base, n)[k..] == Digits(n);
      ValueOfDigits(m);
      ValueOfDigits(n);
    }
  }

  ghost predicate AllTaken(base: string, taken: set<string>, n: nat) {
    forall j: nat :: 1 <= j < n ==> Try(base, j) in taken
  }

  /** Distinct suffixes cannot outnumber the SKUs they collided with. */
  lemma {:induction false} TriesBounded(base: string, taken: set<string>, n: nat)
    requires n >= 1 && AllTaken(base, taken, n)
    ensures n - 1 <= |taken|
  {
    if n > 1 {
      var last := Try(base, n - 1);
      forall j: nat | 1 <= j < n - 1
        ensures Try(base, j) in taken - {last}
      {
        TriesDiffer(base, j, n - 1);
      }
      TriesBounded(base, taken - {last}, n - 1);
    }
  }

  /** The first free try from n on. */
  function FirstFree(base: string, taken: set<string>, n: nat): (sku: string)
    requires n >= 1 && AllTaken(base, taken, n)
    ensures sku !in taken
    ensures exists k: nat :: n <= k <= |taken| + 1 && sku == Try(base, k) && AllTaken(base, taken, k)
    decreases |taken| + 1 - n
  {
    TriesBounded(base, taken, n);
    if Try(base, n) in taken then
      TriesBounded(base, taken, n + 1);
      FirstFree(base, taken, n + 1)
    else Try(base, n)
  }

  /** The SKU a scraped product gets: its own, tidied up, if that is free; otherwise one made
      from `digest`, the short hash of its source and external id. */
  function SkuFor(sku: string, digest: string, taken: set<string>): (r: string)
    ensures r !in taken && r != ""
  {
    if sku != "" && Candidate(sku) != "" && Candidate(sku) !in taken then Candidate(sku)
    else FirstFree("WEB-" + digest, taken, 1)
  }

  /** The suffix loop ends after at most one more try than there are SKUs taken, with the first
      try that is free. */
  method MakeSku(wanted: string, digest: string, taken: set<string>) returns (sku: string)
    ensures sku !in taken
    ensures sku == SkuFor(wanted, digest, taken)
  {
    if wanted != "" {
      var candidate := Candidate(wanted);
      if candidate != "" && candidate !in taken {
        return candidate;
      }
    }
    var base := "WEB-" + digest;
    var n := 2;
    sku := base;
    while sku in taken
      invariant n >= 2 && sku == Try(base, n - 1) && AllTaken(base, taken, n - 1)
      invariant FirstFree(base, taken, 1) == FirstFree(base, taken, n - 1)
      decreases |taken| + 3 - n
    {
      TriesBounded(base, taken, n - 1);
      TriesBounded(base, taken, n);
      sku, n := base + "-" + Digits(n), n + 1;
    }
  }
}
