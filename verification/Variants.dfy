/** Sizes, colours and other choices: what the catalogue shows (app/schemas/commerce.py) and what
    an order accepts (app/agents/tools/orders.py). */
module Variants {
  import opened Text
  import opened Money

  datatype Choice = Choice(option: string, value: string)

  /** A variant; a name the source does not give is "". */
  datatype Variant = Variant(name: string, options: seq<Choice>, price: Option<Dec>, available: bool)

  datatype OptionGroup = OptionGroup(name: string, values: seq<string>)

  // ---------- words ----------

  predicate InWord(c: char) {
    'a' <= c <= 'z' || '0' <= c <= '9' || c == '.' || c == '+'
  }

  /** Lower case, with everything between words turned into one blank. */
  function Norm(s: string): string {
    Join(Words(Lower(s), InWord), " ")
  }

  /** Letters, digits, points and plus signs make up words. */
  predicate InWritten(c: char) {
    'A' <= c <= 'Z' || 'a' <= c <= 'z' || '0' <= c <= '9' || c == '.' || c == '+'
  }

  /** Normalising lowers the words, and puts one blank where anything else stood between them. */
  lemma NormOfWords(s: Spelled)
    requires WellSpelled(s, InWritten)
    ensures Norm(AsText(s)) == Join(LowerAll(WordsIn(s)), " ")
  {
    LowerText(s);
    LoweredIsSpelled(s, InWritten, InWord);
    WordsOfText(Lowered(s), InWord);
  }

  /** Where `requested` is cut: at / , | ; and at a dash between two white spaces. */
  function SplitRequest(s: string, part: string): seq<string>
    decreases |s|
  {
    if s == "" then [part]
    else if IsCut(s[0]) then [part] + SplitRequest(s[1..], "")
    else if DashCut(s) then [part] + SplitRequest(s[3..], "")
    else SplitRequest(s[1..], part + [s[0]])
  }

  predicate IsCut(c: char) {
    c == '/' || c == ',' || c == '|' || c == ';'
  }

  predicate DashCut(s: string) {
    |s| >= 3 && IsSpace(s[0]) && s[1] == '-' && IsSpace(s[2])
  }

  predicate NotColon(c: char) {
    c != ':'
  }

  /** A part's text after its first colon, if it has one: "Size: M" asks for "M". */
  function AfterColon(s: string): string {
    var n := RunLength(s, NotColon);
    if n == |s| then s else s[n + 1..]
  }

  function NonEmpty(parts: seq<string>): seq<string> {
    if parts == [] then []
    else (if parts[0] == "" then [] else [parts[0]]) + NonEmpty(parts[1..])
  }

  function NormedParts(cuts: seq<string>): (parts: seq<string>)
    ensures |parts| == |cuts|
  {
    seq(|cuts|, i requires 0 <= i < |cuts| => Norm(AfterColon(cuts[i])))
  }

  function RequestedParts(requested: string): seq<string> {
    NonEmpty(NormedParts(SplitRequest(requested, "")))
  }

  function SplitSlash(s: string, part: string): seq<string> {
    if s == "" then [part]
    else if s[0] == '/' then [part] + SplitSlash(s[1..], "")
    else SplitSlash(s[1..], part + [s[0]])
  }

  /** The values a request can name: the option values, or the slash-separated name. */
  function ValuesOf(v: Variant): seq<string> {
    if v.options != [] then seq(|v.options|, i requires 0 <= i < |v.options| => Norm(v.options[i].value))
    else
      var parts := SplitSlash(v.name, "");
      seq(|parts|, i requires 0 <= i < |parts| => Norm(parts[i]))
  }

  lemma {:induction false} SplitsAtSlash(s: string, rest: string, part: string)
    requires '/' !in s
    ensures SplitSlash(s + rest, part) == SplitSlash(rest, part + s)
  {
    if s == "" {
      assert s + rest == rest && part + s == part;
    } else {
      SplitsAtSlash(s[1..], rest, part + [s[0]]);
      assert (s + rest)[1..] == s[1..] + rest && part + [s[0]] + s[1..] == part + s;
    }
  }

  lemma {:induction false} SlashesSplit(values: seq<string>)
    requires values != [] && forall i :: 0 <= i < |values| ==> '/' !in values[i]
    ensures SplitSlash(Join(values, "/"), "") == values
  {
    if |values| == 1 {
      SplitsAtSlash(values[0], "", "");
      assert values[0] + "" == values[0] && "" + values[0] == values[0];
    } else {
      var rest := Join(values[1..], "/");
      SplitsAtSlash(values[0], "/" + rest, "");
      assert values[0] + "/" + rest == values[0] + ("/" + rest) && ("/" + rest)[1..] == rest;
      assert "" + values[0] == values[0];
      SlashesSplit(values[1..]);
    }
  }

  /** The names, with slashes between them. */
  predicate IsSlashed(name: string, names: seq<string>) {
    names != [] && name == Join(names, "/") && forall i :: 0 <= i < |names| ==> '/' !in names[i]
  }

  /** A variant has the values of its options, or, where it lists none, those between the slashes of
      its name. */
  lemma ValuesMean(v: Variant, names: seq<string>, part: string)
    ensures v.options != [] ==>
              (part in ValuesOf(v) <==> exists choice :: choice in v.options && Norm(choice.value) == part)
    ensures v.options == [] && IsSlashed(v.name, names) ==>
              (part in ValuesOf(v) <==> exists name :: name in names && Norm(name) == part)
  {
    if v.options != [] {
      OptionValuesMean(v, part);
    } else if IsSlashed(v.name, names) {
      NameValuesMean(v, names, part);
    }
  }

  lemma OptionValuesMean(v: Variant, part: string)
    requires v.options != []
    ensures part in ValuesOf(v) <==> exists choice :: choice in v.options && Norm(choice.value) == part
  {
    if choice :| choice in v.options && Norm(choice.value) == part {
      var i :| 0 <= i < |v.options| && v.options[i] == choice;
      assert ValuesOf(v)[i] == part;
    }
    if part in ValuesOf(v) {
      var i :| 0 <= i < |v.options| && ValuesOf(v)[i] == part;
      assert v.options[i] in v.options;
    }
  }

  lemma NameValuesMean(v: Variant, names: seq<string>, part: string)
    requires v.options == [] && IsSlashed(v.name, names)
    ensures part in ValuesOf(v) <==> exists name :: name in names && Norm(name) == part
  {
    SlashesSplit(names);
    if name :| name in names && Norm(name) == part {
      var i :| 0 <= i < |names| && names[i] == name;
      assert ValuesOf(v)[i] == part;
    }
    if part in ValuesOf(v) {
      var i :| 0 <= i < |names| && ValuesOf(v)[i] == part;
      assert names[i] in names;
    }
  }

  // ---------- matching ----------

  function Filter(variants: seq<Variant>, keep: Variant -> bool): (kept: seq<Variant>)
    ensures forall v :: v in kept <==> v in variants && keep(v)
  {
    if variants == [] then []
    else
      var rest := Filter(variants[..|variants| - 1], keep);
      var last := variants[|variants| - 1];
      if keep(last) then rest + [last] else rest
  }

  predicate NamedLike(v: Variant, requested: string) {
    Norm(v.name) == Norm(requested)
  }

  predicate HasAllParts(v: Variant, parts: seq<string>) {
    parts != [] && forall i :: 0 <= i < |parts| ==> parts[i] in ValuesOf(v)
  }

  /** An exact name wins; otherwise every requested part must be one of the variant's values. */
  function MatchVariants(variants: seq<Variant>, requested: string): seq<Variant> {
    var exact := Filter(variants, v => NamedLike(v, requested));
    if exact != [] then exact
    else
      var parts := RequestedParts(requested);
      Filter(variants, v => HasAllParts(v, parts))
  }

  datatype Refusal = ChoiceNeeded | NoSuchOption | Ambiguous | SoldOut

  /** What the order will carry: the label shown on the line and the variant's own price. */
  datatype Chosen = Chosen(name: Option<string>, price: Option<Dec>)

  predicate Offered(options: seq<OptionGroup>, part: string) {
    exists i, j :: 0 <= i < |options| && 0 <= j < |options[i].values| && Norm(options[i].values[j]) == part
  }

  function ResolveVariant(variants: seq<Variant>, options: seq<OptionGroup>, requested: string)
      : Result<Chosen, Refusal>
  {
    if |variants| <= 1 && options == [] then Ok(Chosen(None, None))
    else if Strip(requested) == "" then Err(ChoiceNeeded)
    else if variants == [] then
      var parts := RequestedParts(requested);
      if forall i :: 0 <= i < |parts| ==> Offered(options, parts[i]) then Ok(Chosen(Some(Strip(requested)), None))
      else Err(NoSuchOption)
    else
      var matches := MatchVariants(variants, requested);
      if matches == [] then Err(NoSuchOption)
      else if |matches| > 1 then Err(Ambiguous)
      else if !matches[0].available then Err(SoldOut)
      else Ok(Chosen(Some(if matches[0].name != "" then matches[0].name else Strip(requested)), matches[0].price))
  }

  // ---------- what the catalogue shows ----------

  const MAX_CHOICES := 30
  const MAX_VALUES := 25

  function AvailableVariants(variants: seq<Variant>): seq<Variant> {
    Filter(variants, (v: Variant) => v.available)
  }

  function Names(variants: seq<Variant>): (names: seq<string>)
    ensures forall name :: name in names <==> name != "" && exists v :: v in variants && v.name == name
    ensures |names| <= |variants|
  {
    if variants == [] then []
    else
      var last := variants[|variants| - 1];
      Names(variants[..|variants| - 1]) + (if last.name == "" then [] else [last.name])
  }

  /** The names on the Choices line; empty when there is none. */
  function ChoicesShown(variants: seq<Variant>): seq<string> {
    var available := AvailableVariants(variants);
    if |variants| > 1 && available != [] then Names(Take(available, MAX_CHOICES)) else []
  }

  predicate Bought(available: seq<Variant>, option: string, value: string) {
    exists i :: 0 <= i < |available| && Choice(option, value) in available[i].options
  }

  /** Those of the values that an in-stock variant has, in their order. */
  function Buyable(available: seq<Variant>, option: string, values: seq<string>): (kept: seq<string>)
    ensures forall value :: value in kept <==> value in values && Bought(available, option, value)
    ensures |kept| <= |values|
  {
    if values == [] then []
    else
      var rest := Buyable(available, option, values[..|values| - 1]);
      var last := values[|values| - 1];
      if Bought(available, option, last) then rest + [last] else rest
  }

  /** An in-stock variant has this value. */
  ghost predicate CanBeHad(variants: seq<Variant>, option: string, value: string) {
    exists v :: v in variants && v.available && Choice(option, value) in v.options
  }

  lemma BoughtIsInStock(variants: seq<Variant>, option: string, value: string)
    ensures Bought(AvailableVariants(variants), option, value) <==> CanBeHad(variants, option, value)
  {
    var available := AvailableVariants(variants);
    if Bought(available, option, value) {
      var i :| 0 <= i < |available| && Choice(option, value) in available[i].options;
      assert available[i] in available;
    }
    if v :| v in variants && v.available && Choice(option, value) in v.options {
      assert v in available;
      var i :| 0 <= i < |available| && available[i] == v;
    }
  }

  lemma BuyableIsInStock(variants: seq<Variant>, group: OptionGroup, value: string)
    ensures value in Buyable(AvailableVariants(variants), group.name, group.values)
       <==> value in group.values && CanBeHad(variants, group.name, value)
  {
    BoughtIsInStock(variants, group.name, value);
  }

  method BuyableValues(available: seq<Variant>, option: string, values: seq<string>) returns (kept: seq<string>)
    ensures kept == Buyable(available, option, values)
  {
    kept := [];
    for n := 0 to |values|
      invariant kept == Buyable(available, option, values[..n])
    {
      assert values[..n + 1][..n] == values[..n];
      if Bought(available, option, values[n]) {
        kept := kept + [values[n]];
      }
    }
    assert values[..|values|] == values;
  }

  /** The values listed for one option: in-stock ones only, when there is variant data; the first
      25 of them, in their order. */
  method ValuesShown(variants: seq<Variant>, group: OptionGroup) returns (shown: seq<string>)
    ensures shown == Take(if variants == [] then group.values
                          else Buyable(AvailableVariants(variants), group.name, group.values), MAX_VALUES)
    ensures |shown| <= 25
    ensures variants != [] ==>
              forall value :: value in shown ==> value in group.values && CanBeHad(variants, group.name, value)
    ensures variants != [] && |Buyable(AvailableVariants(variants), group.name, group.values)| <= 25 ==>
              forall value :: value in group.values && CanBeHad(variants, group.name, value) ==> value in shown
  {
    var values := group.values;
    if variants != [] {
      values := BuyableValues(AvailableVariants(variants), group.name, values);
    }
    shown := Take(values, MAX_VALUES);
    forall value | variants != []
      ensures value in values <==> value in group.values && CanBeHad(variants, group.name, value)
    {
      BuyableIsInStock(variants, group, value);
    }
  }

  // ---------- shown means orderable ----------

  /** No other entry of the list is named alike. */
  ghost predicate OnlyOneNamed(variants: seq<Variant>, k: nat)
    requires k < |variants|
  {
    forall i :: 0 <= i < |variants| && i != k ==> Norm(variants[i].name) != Norm(variants[k].name)
  }

  lemma {:induction false} FilterNone(variants: seq<Variant>, keep: Variant -> bool)
    requires forall i :: 0 <= i < |variants| ==> !keep(variants[i])
    ensures Filter(variants, keep) == []
  {
    if variants != [] {
      FilterNone(variants[..|variants| - 1], keep);
    }
  }

  lemma {:induction false} FilterOnly(variants: seq<Variant>, keep: Variant -> bool, k: nat)
    requires k < |variants| && keep(variants[k])
    requires forall i :: 0 <= i < |variants| && i != k ==> !keep(variants[i])
    ensures Filter(variants, keep) == [variants[k]]
  {
    var init := variants[..|variants| - 1];
    if k == |init| {
      FilterNone(init, keep);
    } else {
      FilterOnly(init, keep, k);
    }
  }

  lemma {:induction false} FilterTwo(variants: seq<Variant>, keep: Variant -> bool, k: nat, i: nat)
    requires k < i < |variants| && keep(variants[k]) && keep(variants[i])
    ensures |Filter(variants, keep)| >= 2
  {
    var init := variants[..|variants| - 1];
    if i == |init| {
      assert variants[k] == init[k] && init[k] in Filter(init, keep);
    } else {
      FilterTwo(init, keep, k, i);
    }
  }

  /** Exactly one variant is kept if and only if no other fits. */
  lemma OneKept(variants: seq<Variant>, keep: Variant -> bool, k: nat)
    requires k < |variants| && keep(variants[k])
    ensures Filter(variants, keep) != []
    ensures |Filter(variants, keep)| == 1 <==> forall i :: 0 <= i < |variants| && i != k ==> !keep(variants[i])
    ensures |Filter(variants, keep)| == 1 ==> Filter(variants, keep)[0] == variants[k]
  {
    assert variants[k] in Filter(variants, keep);
    if i: nat :| i < |variants| && i != k && keep(variants[i]) {
      FilterTwo(variants, keep, if i < k then i else k, if i < k then k else i);
    } else {
      FilterOnly(variants, keep, k);
    }
  }

  /** A choice has to be made: there are several variants, or the options are listed. */
  predicate HasChoice(variants: seq<Variant>, options: seq<OptionGroup>) {
    |variants| > 1 || options != []
  }

  /** What an order for v carries: its name, or the request when it has none, and its price. */
  function Carries(v: Variant, requested: string): Chosen {
    Chosen(Some(if v.name != "" then v.name else Strip(requested)), v.price)
  }

  /** Asking for variant k by name, in any letter case and punctuation: the order takes exactly
      that variant, at its own price, if and only if the request is not blank, no other variant is
      named alike and the variant is in stock. */
  lemma NameResolves(variants: seq<Variant>, options: seq<OptionGroup>, k: nat, requested: string)
    requires k < |variants| && HasChoice(variants, options) && NamedLike(variants[k], requested)
    ensures ResolveVariant(variants, options, requested) == Ok(Carries(variants[k], requested))
       <==> Strip(requested) != "" && OnlyOneNamed(variants, k) && variants[k].available
  {
    OneKept(variants, v => NamedLike(v, requested), k);
  }

  /** What is refused, and why: a blank request where there is a choice, a name that several
      variants have, a variant that is sold out.  Without a choice anything passes. */
  lemma NameRefused(variants: seq<Variant>, options: seq<OptionGroup>, k: nat, requested: string)
    requires k < |variants| && NamedLike(variants[k], requested)
    ensures var r := ResolveVariant(variants, options, requested);
            if !HasChoice(variants, options) then r == Ok(Chosen(None, None))
            else if Strip(requested) == "" then r == Err(ChoiceNeeded)
            else if !OnlyOneNamed(variants, k) then r == Err(Ambiguous)
            else r == Err(SoldOut) <==> !variants[k].available
  {
    OneKept(variants, v => NamedLike(v, requested), k);
  }

  /** Variant i comes into question: it is named as asked or, where none is, it has every value
      asked for. */
  ghost predicate InQuestion(variants: seq<Variant>, requested: string, i: nat) {
    && i < |variants|
    && if exists v :: v in variants && Norm(v.name) == Norm(requested) then Norm(variants[i].name) == Norm(requested)
       else && RequestedParts(requested) != []
            && forall part :: part in RequestedParts(requested) ==> part in ValuesOf(variants[i])
  }

  ghost predicate AnotherInQuestion(variants: seq<Variant>, requested: string, k: nat) {
    exists i: nat :: i != k && InQuestion(variants, requested, i)
  }

  /** Which variants come into question is all that counts: one, and in stock, is taken; several are
      too many; one that is sold out is refused as such. */
  lemma ResolvedExactly(variants: seq<Variant>, options: seq<OptionGroup>, requested: string, k: nat)
    requires HasChoice(variants, options) && Strip(requested) != "" && InQuestion(variants, requested, k)
    ensures ResolveVariant(variants, options, requested)
         == if AnotherInQuestion(variants, requested, k) then Err(Ambiguous)
            else if variants[k].available then Ok(Carries(variants[k], requested)) else Err(SoldOut)
  {
    var keep := Questioned(variants, requested);
    assert variants[k] in variants;
    OneKept(variants, keep, k);
    if AnotherInQuestion(variants, requested, k) {
      var i: nat :| i != k && InQuestion(variants, requested, i);
      assert keep(variants[i]);
    } else {
      forall i | 0 <= i < |variants| && i != k
        ensures !keep(variants[i])
      {
        assert !InQuestion(variants, requested, i);
      }
    }
  }

  lemma Questioned(variants: seq<Variant>, requested: string) returns (keep: Variant -> bool)
    ensures MatchVariants(variants, requested) == Filter(variants, keep)
    ensures forall i: nat :: i < |variants| ==> (keep(variants[i]) <==> InQuestion(variants, requested, i))
  {
    var parts := RequestedParts(requested);
    var exact := Filter(variants, v => NamedLike(v, requested));
    if v :| v in variants && Norm(v.name) == Norm(requested) {
      assert v in exact;
      keep := v => NamedLike(v, requested);
    } else {
      FilterNone(variants, v => NamedLike(v, requested));
      keep := v => HasAllParts(v, parts);
    }
  }

  /** And where none does, the request is refused as unknown. */
  lemma NothingResolves(variants: seq<Variant>, options: seq<OptionGroup>, requested: string)
    requires variants != [] && HasChoice(variants, options) && Strip(requested) != ""
    requires forall i: nat :: !InQuestion(variants, requested, i)
    ensures ResolveVariant(variants, options, requested) == Err(NoSuchOption)
  {
    var keep := Questioned(variants, requested);
    FilterNone(variants, keep);
  }

  /** When names differ after normalisation, every name on the Choices line that is not blank is
      accepted as it stands and brings an in-stock variant of that name with its price. */
  lemma ShownMeansOrderable(variants: seq<Variant>, options: seq<OptionGroup>, name: string)
    requires forall k :: 0 <= k < |variants| ==> OnlyOneNamed(variants, k)
    requires name in ChoicesShown(variants) && Strip(name) != ""
    ensures exists k :: && 0 <= k < |variants| && variants[k].available && variants[k].name == name
                        && ResolveVariant(variants, options, name) == Ok(Chosen(Some(name), variants[k].price))
  {
    var available := AvailableVariants(variants);
    var shown := Take(available, MAX_CHOICES);
    var v :| v in shown && v.name == name;
    assert v in available;
    var k :| 0 <= k < |variants| && variants[k] == v;
    NameResolves(variants, options, k, name);
  }

  /** The first thirty in-stock variants with a name are all shown. */
  lemma OrderableIsShown(variants: seq<Variant>, v: Variant)
    requires |variants| > 1 && |AvailableVariants(variants)| <= 30
    requires v in variants && v.available && v.name != ""
    ensures v.name in ChoicesShown(variants) && |ChoicesShown(variants)| <= 30
  {
  }

  lemma {:induction false} AvailablePrefix(variants: seq<Variant>, n: nat)
    requires n <= |variants|
    ensures AvailableVariants(variants[..n]) <= AvailableVariants(variants)
  {
    if n == |variants| {
      assert variants[..n] == variants;
    } else {
      var init := variants[..|variants| - 1];
      AvailablePrefix(init, n);
      assert init[..n] == variants[..n];
    }
  }

  lemma {:induction false} NamesPrefix(variants: seq<Variant>, n: nat)
    requires n <= |variants|
    ensures Names(variants[..n]) <= Names(variants)
  {
    if n == |variants| {
      assert variants[..n] == variants;
    } else {
      var init := variants[..|variants| - 1];
      NamesPrefix(init, n);
      assert init[..n] == variants[..n];
    }
  }

  /** The line keeps the order of the variants: more of them only add behind, and nothing once
      thirty are in stock. */
  lemma EarlierChoicesFirst(variants: seq<Variant>, n: nat)
    requires 1 < n <= |variants|
    ensures ChoicesShown(variants[..n]) <= ChoicesShown(variants)
    ensures |AvailableVariants(variants[..n])| >= 30 ==> ChoicesShown(variants[..n]) == ChoicesShown(variants)
  {
    AvailablePrefix(variants, n);
    var some, all := AvailableVariants(variants[..n]), AvailableVariants(variants);
    assert Take(some, 30) == Take(all, 30)[..|Take(some, 30)|];
    NamesPrefix(Take(all, 30), |Take(some, 30)|);
    if |some| >= 30 {
      assert Take(some, 30) == Take(all, 30);
    }
  }

  // ---------- choosing by option values ----------

  /** One thing asked for: "M", or "Size: M" with a label. */
  datatype Part = Bare(value: string) | Labelled(option: string, gap: string, value: string)

  /** What stands between two parts: one of the marks, with or without blanks around it, or a dash
      between blanks. */
  datatype Separator = Cut(before: string, mark: char, after: string) | Dash(left: char, right: char)

  /** A request as it may be written: "M / Black", "Size: M, Color: black", "black". */
  datatype Listing = Last(part: Part) | More(part: Part, separator: Separator, rest: Listing)

  function PartText(p: Part): string {
    match p
    case Bare(value) => value
    case Labelled(option, gap, value) => option + ":" + (gap + value)
  }

  function Ahead(separator: Separator): string {
    if separator.Cut? then separator.before else ""
  }

  function Middle(separator: Separator): string {
    if separator.Cut? then [separator.mark] else [separator.left, '-', separator.right]
  }

  function Behind(separator: Separator): string {
    if separator.Cut? then separator.after else ""
  }

  function Written(before: string, l: Listing): string
    decreases l
  {
    match l
    case Last(part) => before + PartText(part)
    case More(part, separator, rest) =>
      before + PartText(part) + Ahead(separator) + (Middle(separator) + Written(Behind(separator), rest))
  }

  /** The values that a listing means to ask for; a part without a word asks for none. */
  function Asked(l: Listing): seq<string> {
    var first := if Norm(l.part.value) == "" then [] else [Norm(l.part.value)];
    first + if l.More? then Asked(l.rest) else []
  }

  /** Text that the cutting leaves whole between blanks: no separator in it, and no dash that stands
      alone. */
  predicate PlainText(s: string) {
    forall i :: 0 <= i < |s| ==> s[i] !in {'/', ',', '|', ';'} && !DashAlone(s, i)
  }

  /** Plain, with a colon only after the label. */
  predicate PlainPart(p: Part) {
    && PlainText(PartText(p))
    && match p
       case Bare(value) => ':' !in value
       case Labelled(option, gap, _) => ':' !in option && Blank(gap)
  }

  predicate PlainSeparator(separator: Separator) {
    match separator
    case Cut(before, mark, after) => Blank(before) && mark in {'/', ',', '|', ';'} && Blank(after)
    case Dash(left, right) => IsBlankCode(left) && IsBlankCode(right)
  }

  predicate PlainListing(l: Listing) {
    && PlainPart(l.part)
    && (l.More? ==> PlainSeparator(l.separator) && PlainListing(l.rest))
  }

  predicate DashAlone(v: string, i: nat)
    requires i < |v|
  {
    v[i] == '-' && (i == 0 || IsSpace(v[i - 1])) && (i == |v| - 1 || IsSpace(v[i + 1]))
  }

  /** No cut starts in s when t follows it. */
  ghost predicate Uncut(s: string, t: string) {
    forall i :: 0 <= i < |s| ==> !IsCut(s[i]) && !DashCut((s + t)[i..])
  }

  lemma UncutTail(s: string, t: string)
    requires s != "" && Uncut(s, t)
    ensures Uncut(s[1..], t)
  {
    forall i | 0 <= i < |s[1..]|
      ensures !IsCut(s[1..][i]) && !DashCut((s[1..] + t)[i..])
    {
      assert (s[1..] + t)[i..] == (s + t)[i + 1..];
    }
  }

  lemma SplitStep(s: string, part: string)
    requires s != "" && !IsCut(s[0]) && !DashCut(s)
    ensures SplitRequest(s, part) == SplitRequest(s[1..], part + [s[0]])
  {
  }

  lemma UncutStep(s: string, t: string, part: string)
    requires s != "" && Uncut(s, t)
    ensures SplitRequest(s + t, part) == SplitRequest(s[1..] + t, part + [s[0]])
  {
    assert (s + t)[0..] == s + t && (s + t)[1..] == s[1..] + t;
    SplitStep(s + t, part);
  }

  lemma {:induction false} SplitKeeps(s: string, t: string, part: string)
    requires Uncut(s, t)
    ensures SplitRequest(s + t, part) == SplitRequest(t, part + s)
    decreases |s|
  {
    if s == "" {
      assert s + t == t && part + s == part;
    } else {
      UncutStep(s, t, part);
      UncutTail(s, t);
      SplitKeeps(s[1..], t, part + [s[0]]);
      assert part + [s[0]] + s[1..] == part + s;
    }
  }

  /** Plain text between blanks, followed by a separator or nothing. */
  lemma PlainIsUncut(before: string, v: string, after: string, t: string)
    requires PlainText(v) && Blank(before) && Blank(after)
    requires t == "" || IsCut(t[0]) || (after == "" && DashCut(t))
    ensures Uncut(before + v + after, t)
  {
    var s := before + v + after;
    forall i | 0 <= i < |s|
      ensures !IsCut(s[i]) && !DashCut((s + t)[i..])
    {
      NoDashCut(before, v, after, t, i);
    }
  }

  lemma NoDashCut(before: string, v: string, after: string, t: string, i: nat)
    requires PlainText(v) && Blank(before) && Blank(after)
    requires t == "" || IsCut(t[0]) || (after == "" && DashCut(t))
    requires i < |before + v + after|
    ensures !DashCut((before + v + after + t)[i..])
  {
  }

  /** What the cutting leaves: each part, with the blanks around it. */
  function Pieces(before: string, l: Listing): seq<string>
    decreases l
  {
    match l
    case Last(part) => [before + PartText(part)]
    case More(part, separator, rest) =>
      [before + PartText(part) + Ahead(separator)] + Pieces(Behind(separator), rest)
  }

  lemma CutOff(head: string, separator: Separator, rest: string)
    requires PlainSeparator(separator) && Uncut(head, Middle(separator) + rest)
    ensures SplitRequest(head + (Middle(separator) + rest), "") == [head] + SplitRequest(rest, "")
  {
    var tail := Middle(separator) + rest;
    SplitKeeps(head, tail, "");
    assert "" + head == head;
    assert tail[|Middle(separator)|..] == rest;
  }

  lemma {:induction false} SplitWritten(before: string, l: Listing)
    requires Blank(before) && PlainListing(l)
    ensures SplitRequest(Written(before, l), "") == Pieces(before, l)
    decreases l
  {
    var text := PartText(l.part);
    match l {
      case Last(_) =>
        PlainIsUncut(before, text, "", "");
        SplitKeeps(before + text + "", "", "");
        assert before + text + "" + "" == before + text && "" + (before + text + "") == before + text;
      case More(_, separator, rest) =>
        var tail := Written(Behind(separator), rest);
        PlainIsUncut(before, text, Ahead(separator), Middle(separator) + tail);
        CutOff(before + text + Ahead(separator), separator, tail);
        SplitWritten(Behind(separator), rest);
    }
  }

  /** Blanks around a value do not matter. */
  lemma NormIgnoresBlanks(before: string, v: string, after: string)
    requires Blank(before) && Blank(after)
    ensures Norm(before + v + after) == Norm(v)
  {
    LowerConcat(before + v, after);
    LowerConcat(before, v);
    WordsAhead(Lower(before) + Lower(v), Lower(after), InWord);
    WordsBehind(Lower(before), Lower(v), InWord);
  }

  lemma {:induction false} RunToColon(s: string, rest: string)
    requires ':' !in s && (rest == "" || rest[0] == ':')
    ensures RunLength(s + rest, NotColon) == |s|
  {
    if s == "" {
      assert s + rest == rest;
    } else {
      assert (s + rest)[1..] == s[1..] + rest;
      RunToColon(s[1..], rest);
    }
  }

  lemma BareAsks(before: string, value: string, after: string)
    requires ':' !in value && Blank(before) && Blank(after)
    ensures Norm(AfterColon(before + value + after)) == Norm(value)
  {
    var s := before + value + after;
    RunToColon(s, "");
    assert s + "" == s;
    NormIgnoresBlanks(before, value, after);
  }

  lemma LabelledAsks(before: string, option: string, gap: string, value: string, after: string)
    requires ':' !in option && Blank(before) && Blank(gap) && Blank(after)
    ensures Norm(AfterColon(before + (option + ":" + (gap + value)) + after)) == Norm(value)
  {
    LabelGoes(before + option, gap + value + after);
    assert before + (option + ":" + (gap + value)) + after == before + option + (":" + (gap + value + after));
    NormIgnoresBlanks(gap, value, after);
  }

  /** A piece asks for its part's value. */
  lemma PieceAsks(before: string, p: Part, after: string)
    requires PlainPart(p) && Blank(before) && Blank(after)
    ensures Norm(AfterColon(before + PartText(p) + after)) == Norm(p.value)
  {
    match p {
      case Bare(value) => BareAsks(before, value, after);
      case Labelled(option, gap, value) => LabelledAsks(before, option, gap, value, after);
    }
  }

  lemma LabelGoes(before: string, rest: string)
    requires ':' !in before
    ensures AfterColon(before + (":" + rest)) == rest
  {
    RunToColon(before, ":" + rest);
  }

  lemma NormedFirst(first: string, rest: seq<string>)
    ensures NormedParts([first] + rest) == [Norm(AfterColon(first))] + NormedParts(rest)
  {
  }

  lemma {:induction false} PiecesAsk(before: string, l: Listing)
    requires Blank(before) && PlainListing(l)
    ensures NonEmpty(NormedParts(Pieces(before, l))) == Asked(l)
    decreases l
  {
    match l {
      case Last(part) =>
        PieceAsks(before, part, "");
        assert before + PartText(part) + "" == before + PartText(part);
      case More(part, separator, rest) =>
        PieceAsks(before, part, Ahead(separator));
        PiecesAsk(Behind(separator), rest);
        NormedFirst(before + PartText(part) + Ahead(separator), Pieces(Behind(separator), rest));
    }
  }

  /** A request that lists plain parts, with or without labels and with any separators, asks for
      exactly their values, empty parts aside. */
  lemma RequestedValues(l: Listing)
    requires PlainListing(l)
    ensures RequestedParts(Written("", l)) == Asked(l)
  {
    SplitWritten("", l);
    PiecesAsk("", l);
  }

  predicate AllSpace(s: string) {
    forall i :: 0 <= i < |s| ==> IsSpace(s[i])
  }

  lemma {:induction false} StripLeft(s: string)
    ensures TrimLeft(s, IsSpace) == "" ==> AllSpace(s)
    ensures TrimLeft(s, IsSpace) != "" ==> !IsSpace(TrimLeft(s, IsSpace)[0])
  {
    if s != "" && IsSpace(s[0]) {
      StripLeft(s[1..]);
    }
  }

  lemma {:induction false} StripRight(s: string)
    ensures TrimRight(s, IsSpace) == "" ==> AllSpace(s)
  {
    if s != "" && IsSpace(s[|s| - 1]) {
      StripRight(s[..|s| - 1]);
    }
  }

  lemma {:induction false} SpaceHasNoWords(s: string)
    requires AllSpace(s)
    ensures Words(Lower(s), InWord) == []
  {
    if s != "" {
      SpaceHasNoWords(s[1..]);
      assert Lower(s)[1..] == Lower(s[1..]);
    }
  }

  lemma BlankStrips(s: string)
    requires Strip(s) == ""
    ensures AllSpace(s)
  {
    StripLeft(s);
    StripRight(TrimLeft(s, IsSpace));
  }

  lemma PartHasWord(p: Part)
    requires Norm(p.value) != ""
    ensures !AllSpace(PartText(p))
  {
    var text := PartText(p);
    var n := |text| - |p.value|;
    assert text[n..] == p.value;
    if AllSpace(text) {
      assert forall i :: 0 <= i < |p.value| ==> p.value[i] == text[n + i];
      SpaceHasNoWords(p.value);
    }
  }

  lemma PartNotSpace(a: string, s: string, b: string)
    requires !AllSpace(s)
    ensures !AllSpace(a + (s + b))
  {
    var i :| 0 <= i < |s| && !IsSpace(s[i]);
    assert (a + (s + b))[|a| + i] == s[i];
  }

  lemma FirstHasWord(before: string, l: Listing)
    requires Norm(l.part.value) != ""
    ensures !AllSpace(Written(before, l))
  {
    PartHasWord(l.part);
    BeginsWithPart(before, l);
    var i :| 0 <= i < |PartText(l.part)| && !IsSpace(PartText(l.part)[i]);
    assert Written(before, l)[|before| + i] == (before + PartText(l.part))[|before| + i];
  }

  lemma BeginsWithPart(before: string, l: Listing)
    ensures before + PartText(l.part) <= Written(before, l)
  {
  }

  lemma RestHasWord(before: string, l: Listing)
    requires l.More? && !AllSpace(Written(Behind(l.separator), l.rest))
    ensures !AllSpace(Written(before, l))
  {
    var ahead, rest := before + PartText(l.part) + Ahead(l.separator), Written(Behind(l.separator), l.rest);
    PartNotSpace(ahead + Middle(l.separator), rest, "");
    assert ahead + Middle(l.separator) + (rest + "") == ahead + (Middle(l.separator) + rest);
  }

  lemma {:induction false} ListingHasWord(before: string, l: Listing)
    requires Asked(l) != []
    ensures !AllSpace(Written(before, l))
    decreases l
  {
    if Norm(l.part.value) != "" {
      FirstHasWord(before, l);
    } else {
      ListingHasWord(Behind(l.separator), l.rest);
      RestHasWord(before, l);
    }
  }

  lemma ListingNotBlank(l: Listing)
    requires Asked(l) != []
    ensures Strip(Written("", l)) != ""
  {
    ListingHasWord("", l);
    if Strip(Written("", l)) == "" {
      BlankStrips(Written("", l));
    }
  }

  lemma MatchedByParts(variants: seq<Variant>, requested: string)
    requires forall i :: 0 <= i < |variants| ==> !NamedLike(variants[i], requested)
    ensures MatchVariants(variants, requested) == Filter(variants, v => HasAllParts(v, RequestedParts(requested)))
  {
    FilterNone(variants, v => NamedLike(v, requested));
  }

  /** Asking for variant k by some of its values, in any order, with labels or without: unless a
      variant is named just like the request, the order takes variant k, at its price, if and only
      if it is in stock and no other variant has all those values. */
  lemma ValuesResolve(variants: seq<Variant>, options: seq<OptionGroup>, k: nat, l: Listing)
    requires k < |variants| && HasChoice(variants, options) && PlainListing(l)
    requires HasAllParts(variants[k], Asked(l))
    requires forall i :: 0 <= i < |variants| ==> !NamedLike(variants[i], Written("", l))
    ensures ResolveVariant(variants, options, Written("", l)) == Ok(Carries(variants[k], Written("", l)))
       <==> && variants[k].available
            && forall i :: 0 <= i < |variants| && i != k ==> !HasAllParts(variants[i], Asked(l))
  {
    ListingNotBlank(l);
    RequestedValues(l);
    MatchedByParts(variants, Written("", l));
    OneKept(variants, v => HasAllParts(v, Asked(l)), k);
  }

  /** Where only options are known, a listing is accepted as it is written, at the product's own
      price, if and only if each value it asks for is one of the options' values. */
  lemma OptionsResolve(options: seq<OptionGroup>, l: Listing)
    requires options != [] && PlainListing(l) && Strip(Written("", l)) != ""
    ensures ResolveVariant([], options, Written("", l)) ==
            if forall i :: 0 <= i < |Asked(l)| ==> IsOptionValue(options, Asked(l)[i])
            then Ok(Chosen(Some(Strip(Written("", l))), None)) else Err(NoSuchOption)
  {
    RequestedValues(l);
    forall i | 0 <= i < |Asked(l)|
      ensures Offered(options, Asked(l)[i]) <==> IsOptionValue(options, Asked(l)[i])
    {
      OfferedIsValue(options, Asked(l)[i]);
    }
  }

  ghost predicate IsOptionValue(options: seq<OptionGroup>, part: string) {
    exists group, value :: group in options && value in group.values && Norm(value) == part
  }

  lemma OfferedIsValue(options: seq<OptionGroup>, part: string)
    ensures Offered(options, part) <==> IsOptionValue(options, part)
  {
    if group, value :| group in options && value in group.values && Norm(value) == part {
      var i :| 0 <= i < |options| && options[i] == group;
      var j :| 0 <= j < |group.values| && group.values[j] == value;
      assert Norm(options[i].values[j]) == part;
    }
    if i, j :| 0 <= i < |options| && 0 <= j < |options[i].values| && Norm(options[i].values[j]) == part {
      assert options[i] in options && options[i].values[j] in options[i].values;
    }
  }

  /** The way variant names are written, "M / Black", is such a listing. */
  function Slashed(values: seq<string>): Listing
    requires values != []
  {
    if |values| == 1 then Last(Bare(values[0]))
    else More(Bare(values[0]), Cut(" ", '/', " "), Slashed(values[1..]))
  }

  lemma {:induction false} SlashedIsJoined(before: string, values: seq<string>)
    requires values != []
    ensures Written(before, Slashed(values)) == before + Join(values, " / ")
    decreases |values|
  {
    if |values| > 1 {
      SlashedIsJoined(" ", values[1..]);
    }
  }
}
