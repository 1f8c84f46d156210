/** robots.txt for the crawler: `_Robots` (app/catalog_sync/extractors.py). */
module RobotsTxt {
  import opened Text

  datatype Directive =
    | Sitemap(url: string)
    | Agent(name: string)
    | Path(allow: bool, path: string)
    | Nothing

  datatype Rule = Rule(allow: bool, path: string)

  datatype Robots = Robots(sitemaps: seq<string>, rules: seq<Rule>)

  function UpTo(s: string, c: char): (r: string)
    ensures |r| <= |s|
  {
    s[..RunLength(s, x => x != c)]
  }

  /** One line: the comment goes, then `key: value` is read; anything else says nothing. */
  function ReadLine(text: string): Directive {
    var line := Strip(UpTo(text, '#'));
    var key := UpTo(line, ':');
    if key == line then Nothing else ReadPair(Lower(Strip(key)), Strip(line[|key| + 1..]))
  }

  function ReadPair(key: string, value: string): Directive {
    match key
    case "sitemap" => Sitemap(value)
    case "user-agent" => Agent(Lower(value))
    case "allow" => Path(true, value)
    case "disallow" => Path(false, value)
    case _ => Nothing
  }

  function ReadLines(lines: seq<string>): (ds: seq<Directive>)
    ensures |ds| == |lines|
  {
    seq(|lines|, i requires 0 <= i < |lines| => ReadLine(lines[i]))
  }

  /** A directive as it is written in the file, in the letter case of `key`. */
  predicate Says(key: string, value: string, d: Directive) {
    || (Lower(key) == "sitemap" && d == Sitemap(value))
    || (Lower(key) == "user-agent" && d == Agent(Lower(value)))
    || (Lower(key) == "allow" && d == Path(true, value))
    || (Lower(key) == "disallow" && d == Path(false, value))
  }

  /** Text without a comment mark, that does not begin or end with white space. */
  predicate PlainText(s: string) {
    && '#' !in s
    && (s != "" ==> !IsBlankCode(s[0]) && !IsBlankCode(s[|s| - 1]))
  }

  lemma {:induction false} UpToIs(s: string, rest: string, c: char)
    requires c !in s && (rest == "" || rest[0] == c)
    ensures UpTo(s + rest, c) == s
  {
    if s == "" {
      assert s + rest == rest;
    } else {
      UpToIs(s[1..], rest, c);
      assert (s + rest)[1..] == s[1..] + rest;
      assert (s + rest)[0] == s[0] && s[0] in s;
    }
  }

  lemma PairReadsBack(key: string, value: string, d: Directive)
    requires Says(key, value, d)
    ensures ReadPair(Lower(key), value) == d
  {
  }

  /** A line with a key and a value: the blanks around both are white space, and a comment may follow. */
  predicate IsLine(text: string, key: string, value: string, before: string, mid: string, gap: string, after: string,
                   comment: string)
  {
    && Blank(before) && Blank(mid) && Blank(gap) && Blank(after) && (comment == "" || comment[0] == '#')
    && PlainText(key) && ':' !in key && (key != "" || mid == "") && PlainText(value)
    && text == before + (key + mid + ":" + (gap + value)) + after + comment
  }

  lemma LineStrips(before: string, head: string, gap: string, value: string, after: string)
    requires Blank(before) && Blank(gap) && Blank(after) && PlainText(value)
    requires head != "" && !IsBlankCode(head[0]) && !IsBlankCode(head[|head| - 1])
    ensures Strip(before + (head + (gap + value)) + after) == head + (if value == "" then "" else gap + value)
  {
    if value == "" {
      StripMeans(before, head, gap + after);
      assert before + (head + (gap + value)) + after == before + head + (gap + after);
      assert head + "" == head;
    } else {
      StripMeans(before, head + (gap + value), after);
    }
  }

  lemma KeyAndValue(key: string, mid: string, gap: string, value: string)
    requires Blank(mid) && Blank(gap) && PlainText(key) && ':' !in key && PlainText(value) && (key != "" || mid == "")
    ensures var rest := if value == "" then "" else gap + value;
            && UpTo(key + mid + ":" + rest, ':') == key + mid && (key + mid + ":" + rest)[|key + mid| + 1..] == rest
            && Strip(key + mid) == key && Strip(rest) == value
  {
    var rest := if value == "" then "" else gap + value;
    UpToIs(key + mid, ":" + rest, ':');
    Regroup(key + mid, ":", rest);
    StripMeans("", key, mid);
    assert "" + key + mid == key + mid;
    StripMeans(if value == "" then "" else gap, value, "");
    assert rest + "" == rest && "" + value + "" == value;
  }

  lemma LineReads(text: string, key: string, value: string, before: string, mid: string, gap: string, after: string,
                  comment: string)
    requires IsLine(text, key, value, before, mid, gap, after, comment)
    ensures ReadLine(text) == ReadPair(Lower(key), value)
  {
    var head := key + mid + ":";
    UpToIs(before + (head + (gap + value)) + after, comment, '#');
    LineStrips(before, head, gap, value, after);
    KeyAndValue(key, mid, gap, value);
  }

  /** Each directive is read from its line, in any letter case, whatever white space stands around the
      key and the value and whatever comment follows. */
  lemma LineReadsBack(text: string, key: string, value: string, before: string, mid: string, gap: string, after: string,
                      comment: string, d: Directive)
    requires IsLine(text, key, value, before, mid, gap, after, comment) && Says(key, value, d)
    ensures ReadLine(text) == d
  {
    LineReads(text, key, value, before, mid, gap, after, comment);
    PairReadsBack(key, value, d);
  }

  /** A line with another key says nothing. */
  lemma OtherKeysSayNothing(text: string, key: string, value: string, before: string, mid: string, gap: string,
                            after: string, comment: string)
    requires IsLine(text, key, value, before, mid, gap, after, comment)
    requires Lower(key) !in {"sitemap", "user-agent", "allow", "disallow"}
    ensures ReadLine(text) == Nothing
  {
    LineReads(text, key, value, before, mid, gap, after, comment);
  }

  lemma {:induction false} TrimmedOff(s: string, drop: char -> bool, c: char)
    requires c !in s
    ensures c !in TrimLeft(s, drop) && c !in TrimRight(s, drop)
    decreases |s|
  {
    if s != "" {
      TrimmedOff(s[1..], drop, c);
      TrimmedOff(s[..|s| - 1], drop, c);
    }
  }

  /** Nor does a line without a colon. */
  lemma NoColonSaysNothing(text: string)
    requires ':' !in text
    ensures ReadLine(text) == Nothing
  {
    var cut := UpTo(text, '#');
    TrimmedOff(cut, IsSpace, ':');
    TrimmedOff(TrimLeft(cut, IsSpace), IsSpace, ':');
    var line := Strip(cut);
    UpToIs(line, "", ':');
    assert line + "" == line;
  }

  // ---------- which rules count ----------

  /** The user-agent line j opens or continues the group that the rule i belongs to: nowhere
      between them does a user-agent line follow a rule. */
  ghost predicate SameGroup(ds: seq<Directive>, j: nat, i: nat)
    requires i < |ds|
  {
    && j < i && ds[j].Agent? && ds[i].Path?
    && forall r, a :: j < r < a < i && ds[r].Path? ==> !ds[a].Agent?
  }

  /** A rule counts when it is not empty and its group names every crawler. */
  ghost predicate Counts(ds: seq<Directive>, i: nat)
    requires i < |ds|
  {
    ds[i].Path? && ds[i].path != "" && exists j: nat :: SameGroup(ds, j, i) && ds[j].name == "*"
  }

  ghost function CountingRules(ds: seq<Directive>, n: nat): seq<Rule>
    requires n <= |ds|
  {
    if n == 0 then []
    else CountingRules(ds, n - 1) + (if Counts(ds, n - 1) then [Rule(ds[n - 1].allow, ds[n - 1].path)] else [])
  }

  ghost function Sitemaps(ds: seq<Directive>, n: nat): seq<string>
    requires n <= |ds|
  {
    if n == 0 then []
    else Sitemaps(ds, n - 1) + (if ds[n - 1].Sitemap? then [ds[n - 1].url] else [])
  }

  /** The rules kept are those of the counting lines, as the lines state them and in their order:
      the place of a line's rule is the number of rules kept before it. */
  lemma {:induction false} KeptAt(ds: seq<Directive>, i: nat, n: nat)
    requires i < n <= |ds| && Counts(ds, i)
    ensures |CountingRules(ds, i)| < |CountingRules(ds, n)|
    ensures CountingRules(ds, n)[|CountingRules(ds, i)|] == Rule(ds[i].allow, ds[i].path)
    decreases n
  {
    if i < n - 1 {
      KeptAt(ds, i, n - 1);
    }
  }

  /** And no other rule is kept. */
  lemma {:induction false} KeptFrom(ds: seq<Directive>, n: nat, k: nat) returns (i: nat)
    requires n <= |ds| && k < |CountingRules(ds, n)|
    ensures i < n && Counts(ds, i) && |CountingRules(ds, i)| == k
    decreases n
  {
    if k < |CountingRules(ds, n - 1)| {
      i := KeptFrom(ds, n - 1, k);
    } else {
      i := n - 1;
    }
  }

  /** A group [g, n) in the making: no user-agent line in it follows a rule, and every earlier
      user-agent line is cut off from it by a rule before g, where a new group begins. */
  ghost predicate OpenGroup(ds: seq<Directive>, g: nat, n: nat)
    requires n <= |ds|
  {
    && g <= n
    && (g > 0 ==> g < n && ds[g].Agent?)
    && (forall r, a :: g <= r < a < n && ds[r].Path? ==> !ds[a].Agent?)
    && (forall j :: 0 <= j < g && ds[j].Agent? ==> exists r :: j < r < g && ds[r].Path?)
  }

  lemma GroupDecides(ds: seq<Directive>, g: nat, i: nat)
    requires i < |ds| && ds[i].Path? && OpenGroup(ds, g, i)
    ensures (exists j: nat :: SameGroup(ds, j, i) && ds[j].name == "*")
       <==> (exists j :: g <= j < i && ds[j] == Agent("*"))
  {
  }

  /** What the loop knows of the current group: has one of its rules been seen (`inRules`), and
      does it name every crawler (`star`)? */
  ghost predicate Tracks(ds: seq<Directive>, g: nat, n: nat, inRules: bool, star: bool)
    requires n <= |ds|
  {
    && OpenGroup(ds, g, n)
    && (inRules <==> exists r :: g <= r < n && ds[r].Path?)
    && (star <==> exists j :: g <= j < n && ds[j] == Agent("*"))
  }

  lemma TracksAgent(ds: seq<Directive>, g: nat, n: nat, inRules: bool, star: bool)
    requires n < |ds| && Tracks(ds, g, n, inRules, star) && ds[n].Agent?
    ensures var here := ds[n].name == "*";
            if inRules then Tracks(ds, n, n + 1, false, here) else Tracks(ds, g, n + 1, false, star || here)
  {
  }

  lemma TracksOther(ds: seq<Directive>, g: nat, n: nat, inRules: bool, star: bool)
    requires n < |ds| && Tracks(ds, g, n, inRules, star) && !ds[n].Agent?
    ensures Tracks(ds, g, n + 1, inRules || ds[n].Path?, star)
    ensures ds[n].Path? ==> (Counts(ds, n) <==> star && ds[n].path != "")
  {
    if ds[n].Path? {
      GroupDecides(ds, g, n);
    }
  }

  /** One pass over the directives, with the agents of the current group and whether one of its
      rules has been seen, keeps exactly the rules that count. */
  method Collect(ds: seq<Directive>) returns (robots: Robots)
    ensures robots.rules == CountingRules(ds, |ds|)
    ensures robots.sitemaps == Sitemaps(ds, |ds|)
  {
    var sitemaps, rules := [], [];
    var agents, inRules := [], false;
    ghost var g := 0;
    for n := 0 to |ds|
      invariant Tracks(ds, g, n, inRules, "*" in agents)
      invariant rules == CountingRules(ds, n)
      invariant sitemaps == Sitemaps(ds, n)
    {
      match ds[n] {
        case Sitemap(url) =>
          TracksOther(ds, g, n, inRules, "*" in agents);
          sitemaps := sitemaps + [url];
        case Agent(name) =>
          TracksAgent(ds, g, n, inRules, "*" in agents);
          if inRules {
            agents, inRules := [], false;
            g := n;
          }
          agents := agents + [name];
        case Path(allow, path) =>
          TracksOther(ds, g, n, inRules, "*" in agents);
          inRules := true;
          if "*" in agents && path != "" {
            rules := rules + [Rule(allow, path)];
          }
        case Nothing =>
          TracksOther(ds, g, n, inRules, "*" in agents);
      }
    }
    robots := Robots(sitemaps, rules);
  }

  method Read(lines: seq<string>) returns (robots: Robots)
    ensures robots.rules == CountingRules(ReadLines(lines), |lines|)
    ensures robots.sitemaps == Sitemaps(ReadLines(lines), |lines|)
  {
    robots := Collect(ReadLines(lines));
  }

  // ---------- which rule decides ----------

  /** Characters the regular-expression escape puts a backslash in front of. */
  predicate Escaped(c: char) {
    || '\t' <= c <= '\r' || c == ' ' || '#' <= c <= '$' || c == '&' || '(' <= c <= '+'
    || '-' <= c <= '.' || c == '?' || '[' <= c <= '^' || '{' <= c <= '~'
  }

  /** The length of the compiled pattern: `*` becomes `.*`, `$` stays one character, and every
      other special character takes a backslash. */
  function PatternLength(path: string): nat {
    if path == "" then 0
    else PatternLength(path[..|path| - 1]) +
         (if path[|path| - 1] == '$' then 1 else if Escaped(path[|path| - 1]) then 2 else 1)
  }

  /** By their codes the characters that make a pattern one longer: white space, #, &, the brackets
      and round brackets, *, +, -, the point, ?, the backslash, ^, the braces, | and ~. */
  predicate Lengthens(c: char) {
    var code := c as int;
    || 9 <= code <= 13 || code == 32 || code == 35 || code == 38 || 40 <= code <= 43 || 45 <= code <= 46
    || code == 63 || 91 <= code <= 94 || 123 <= code <= 126
  }

  lemma LengthOfOne(s: string, c: char)
    ensures PatternLength(s + [c]) == PatternLength(s) + if Lengthens(c) then 2 else 1
  {
  }

  /** A pattern is as long as its path and one more for each such character in it. */
  lemma {:induction false} LengthIs(path: string, counted: nat -> bool)
    requires forall i: nat :: i < |path| ==> (counted(i) <==> Lengthens(path[i]))
    ensures PatternLength(path) == |path| + |set i: nat | i < |path| && counted(i)|
  {
    if path != "" {
      var init, c := path[..|path| - 1], path[|path| - 1];
      LengthIs(init, counted);
      assert path == init + [c];
      LengthOfOne(init, c);
      OneMoreCounted(|init|, counted);
    }
  }

  /** Rule i matches, no matching rule is longer, and no earlier one is equally long. */
  ghost predicate Decides(rules: seq<Rule>, matches: string -> bool, size: string -> nat, i: nat) {
    && Longest(rules, matches, size, i)
    && forall j :: 0 <= j < i && matches(rules[j].path) ==> size(rules[j].path) < size(rules[i].path)
  }

  ghost predicate Longest(rules: seq<Rule>, matches: string -> bool, size: string -> nat, i: nat) {
    && i < |rules| && matches(rules[i].path)
    && forall j :: 0 <= j < |rules| && matches(rules[j].path) ==> size(rules[j].path) <= size(rules[i].path)
  }

  ghost predicate NoneMatches(rules: seq<Rule>, matches: string -> bool) {
    forall j :: 0 <= j < |rules| ==> !matches(rules[j].path)
  }

  /** The deciding rule allows, or there is none. */
  ghost predicate Allows(rules: seq<Rule>, matches: string -> bool, size: string -> nat) {
    NoneMatches(rules, matches) || exists i: nat :: Decides(rules, matches, size, i) && rules[i].allow
  }

  /** The verdict for one target; `matches` says which patterns match it.  No match means
      allowed. */
  method Allowed(rules: seq<Rule>, matches: string -> bool) returns (allowed: bool)
    ensures allowed <==> Allows(rules, matches, PatternLength)
    ensures forall i: nat :: Decides(rules, matches, PatternLength, i) ==> allowed == rules[i].allow
    ensures NoneMatches(rules, matches) ==> allowed
  {
    allowed := AllowedBySize(rules, matches, PatternLength);
  }

  method AllowedBySize(rules: seq<Rule>, matches: string -> bool, size: string -> nat) returns (allowed: bool)
    ensures allowed <==> Allows(rules, matches, size)
    ensures forall i: nat :: Decides(rules, matches, size, i) ==> allowed == rules[i].allow
    ensures NoneMatches(rules, matches) ==> allowed
  {
    var bestLength: int := -1;
    allowed := true;
    ghost var winner: Option<nat> := None;
    for n := 0 to |rules|
      invariant winner.None? ==> bestLength == -1 && allowed
      invariant winner.None? ==> forall j :: 0 <= j < n ==> !matches(rules[j].path)
      invariant winner.Some? ==> winner.value < n && Decides(rules[..n], matches, size, winner.value)
      invariant winner.Some? ==> bestLength == size(rules[winner.value].path) && allowed == rules[winner.value].allow
    {
      if matches(rules[n].path) && size(rules[n].path) > bestLength {
        bestLength, allowed := size(rules[n].path), rules[n].allow;
        winner := Some(n);
      }
    }
    assert rules[..|rules|] == rules;
  }

  lemma {:induction false} DecidesExists(rules: seq<Rule>, matches: string -> bool, size: string -> nat, k: nat)
      returns (i: nat)
    requires k < |rules| && matches(rules[k].path)
    ensures Decides(rules, matches, size, i)
  {
    var init, last := rules[..|rules| - 1], rules[|rules| - 1];
    if exists j :: 0 <= j < |init| && matches(init[j].path) {
      var j :| 0 <= j < |init| && matches(init[j].path);
      i := DecidesExists(init, matches, size, j);
      if matches(last.path) && size(last.path) > size(rules[i].path) {
        i := |init|;
      }
    } else {
      assert forall j :: 0 <= j < |init| ==> rules[j] == init[j];
      i := |init|;
    }
  }

  // ---------- against section 2.2.2 of RFC 9309 ----------

  /** The standard's verdict: among the longest matching rules an allow rule wins, and no match
      means allowed. */
  ghost predicate StandardAllows(rules: seq<Rule>, matches: string -> bool, size: string -> nat) {
    || (exists i: nat :: Longest(rules, matches, size, i) && rules[i].allow)
    || NoneMatches(rules, matches)
  }

  /** Measuring rules alike, the reader departs from the standard's tie rule exactly when the
      rule it decides by forbids and an equally long matching rule allows. */
  lemma TieRule(rules: seq<Rule>, matches: string -> bool, size: string -> nat, i: nat)
    requires Decides(rules, matches, size, i)
    ensures rules[i].allow != StandardAllows(rules, matches, size)
       <==> && !rules[i].allow
            && exists j :: && 0 <= j < |rules| && matches(rules[j].path) && rules[j].allow
                           && size(rules[j].path) == size(rules[i].path)
  {
  }

  /** The standard counts the octets of a rule as it is written. */
  function Octets(path: string): nat {
    |path|
  }

  /** A reader that decides by `size` gives the standard's verdict, which goes by `written`. */
  ghost predicate Agree(rules: seq<Rule>, size: string -> nat, written: string -> nat, matches: string -> bool) {
    Allows(rules, matches, size) <==> StandardAllows(rules, matches, written)
  }

  ghost predicate FirstOfPath(rules: seq<Rule>, j: nat) {
    j < |rules| && forall h :: 0 <= h < j ==> rules[h].path != rules[j].path
  }

  ghost predicate FirstAllow(rules: seq<Rule>, i: nat) {
    i < |rules| && rules[i].allow && forall h :: 0 <= h < i && rules[h].allow ==> rules[h].path != rules[i].path
  }

  /** Where rule i allows and rule j forbids, and both match, the reader prefers i exactly when the
      standard does. */
  ghost predicate SamePreference(rules: seq<Rule>, size: string -> nat, written: string -> nat, i: nat, j: nat)
    requires i < |rules| && j < |rules|
  {
    var p, q := rules[i].path, rules[j].path;
    written(p) >= written(q) <==> size(p) > size(q) || (size(p) == size(q) && i < j)
  }

  /** The same for every pair that can matter; a rule behind another one for the same path does
      not. */
  ghost predicate SameOrder(rules: seq<Rule>, size: string -> nat, written: string -> nat) {
    forall i: nat, j: nat :: FirstAllow(rules, i) && FirstOfPath(rules, j) && !rules[j].allow ==>
      SamePreference(rules, size, written, i, j)
  }

  lemma DecidingVerdict(rules: seq<Rule>, matches: string -> bool, size: string -> nat, d: nat)
    requires Decides(rules, matches, size, d)
    ensures Allows(rules, matches, size) <==> rules[d].allow
    ensures FirstOfPath(rules, d)
  {
  }

  lemma FirstAllowOf(rules: seq<Rule>, i: nat) returns (first: nat)
    requires i < |rules| && rules[i].allow
    ensures FirstAllow(rules, first) && rules[first].path == rules[i].path
    decreases i
  {
    first := i;
    if h :| 0 <= h < i && rules[h].allow && rules[h].path == rules[i].path {
      first := FirstAllowOf(rules, h);
    }
  }

  lemma SameOrderAgrees(rules: seq<Rule>, size: string -> nat, written: string -> nat, matches: string -> bool)
    requires SameOrder(rules, size, written)
    ensures Agree(rules, size, written, matches)
  {
    if k: nat :| k < |rules| && matches(rules[k].path) {
      var d := DecidesExists(rules, matches, size, k);
      DecidingVerdict(rules, matches, size, d);
      if rules[d].allow {
        var m := DecidesExists(rules, matches, written, k);
        DecidingVerdict(rules, matches, written, m);
        if !rules[m].allow {
          assert SamePreference(rules, size, written, d, m);
          assert Longest(rules, matches, written, d);
        }
      } else if i: nat :| Longest(rules, matches, written, i) && rules[i].allow {
        var first := FirstAllowOf(rules, i);
        assert SamePreference(rules, size, written, first, d);
      }
    }
  }

  function Only(p: string, q: string): string -> bool {
    path => path == p || path == q
  }

  /** Tried with one path, agreement means that its first rule allows if any does. */
  lemma OnePath(rules: seq<Rule>, size: string -> nat, written: string -> nat, i: nat, k: nat)
    requires FirstOfPath(rules, i) && k < |rules| && rules[k].allow && rules[k].path == rules[i].path
    requires Agree(rules, size, written, Only(rules[i].path, rules[i].path))
    ensures rules[i].allow
  {
    var only := Only(rules[i].path, rules[i].path);
    assert Decides(rules, only, size, i);
    DecidingVerdict(rules, only, size, i);
    assert Longest(rules, only, written, k);
  }

  lemma FirstOf(rules: seq<Rule>, i: nat) returns (first: nat)
    requires i < |rules|
    ensures first <= i && FirstOfPath(rules, first) && rules[first].path == rules[i].path
    decreases i
  {
    first := i;
    if h :| 0 <= h < i && rules[h].path == rules[i].path {
      first := FirstOf(rules, h);
    }
  }

  /** Tried with two paths, it means that the two are preferred alike. */
  lemma TwoPaths(rules: seq<Rule>, size: string -> nat, written: string -> nat, i: nat, j: nat)
    requires FirstOfPath(rules, i) && FirstOfPath(rules, j) && rules[i].path != rules[j].path
    requires rules[i].allow && forall k :: 0 <= k < |rules| && rules[k].path == rules[j].path ==> !rules[k].allow
    requires Agree(rules, size, written, Only(rules[i].path, rules[j].path))
    ensures SamePreference(rules, size, written, i, j)
  {
    var p, q := rules[i].path, rules[j].path;
    var both := Only(p, q);
    var d := if size(p) > size(q) || (size(p) == size(q) && i < j) then i else j;
    assert Decides(rules, both, size, d);
    DecidingVerdict(rules, both, size, d);
    if written(p) >= written(q) {
      assert Longest(rules, both, written, i);
    }
  }

  lemma AgreementOrders(rules: seq<Rule>, size: string -> nat, written: string -> nat, i: nat, j: nat)
    requires forall matches: string -> bool :: Agree(rules, size, written, matches)
    requires FirstAllow(rules, i) && FirstOfPath(rules, j) && !rules[j].allow
    ensures SamePreference(rules, size, written, i, j)
  {
    var first := FirstOf(rules, i);
    OnePath(rules, size, written, first, i);
    assert first == i;
    forall k | 0 <= k < |rules| && rules[k].path == rules[j].path
      ensures !rules[k].allow
    {
      if rules[k].allow {
        OnePath(rules, size, written, j, k);
      }
    }
    TwoPaths(rules, size, written, i, j);
  }

  /** The reader's verdict is the standard's, whatever a target matches, if and only if compiled
      length, with the earlier rule first, orders each allowing and each forbidding rule as written
      length does, with the allowing rule first. */
  lemma AgreesExactly(rules: seq<Rule>)
    ensures (forall matches: string -> bool :: Agree(rules, PatternLength, Octets, matches))
       <==> SameOrder(rules, PatternLength, Octets)
  {
    if SameOrder(rules, PatternLength, Octets) {
      forall matches: string -> bool
        ensures Agree(rules, PatternLength, Octets, matches)
      {
        SameOrderAgrees(rules, PatternLength, Octets, matches);
      }
    } else {
      var i: nat, j: nat :| && FirstAllow(rules, i) && FirstOfPath(rules, j) && !rules[j].allow
                            && !SamePreference(rules, PatternLength, Octets, i, j);
      if forall matches: string -> bool :: Agree(rules, PatternLength, Octets, matches) {
        AgreementOrders(rules, PatternLength, Octets, i, j);
      }
    }
  }

  /** Whenever the two measures order a longer allowing rule and a shorter forbidding one
      differently, the reader forbids what the standard allows. */
  lemma MeasuresDisagree(matches: string -> bool, allow: string, forbid: string)
    requires matches(allow) && matches(forbid)
    requires |allow| > |forbid| && PatternLength(allow) < PatternLength(forbid)
    ensures var rules := [Rule(true, allow), Rule(false, forbid)];
            && Decides(rules, matches, PatternLength, 1) && !rules[1].allow
            && StandardAllows(rules, matches, Octets)
            && !Agree(rules, PatternLength, Octets, matches)
  {
    var rules := [Rule(true, allow), Rule(false, forbid)];
    assert Longest(rules, matches, Octets, 0);
    assert Decides(rules, matches, PatternLength, 1);
    DecidingVerdict(rules, matches, PatternLength, 1);
  }

  lemma {:induction false} PlainLength(path: string)
    requires forall i :: 0 <= i < |path| ==> !Escaped(path[i])
    ensures PatternLength(path) == |path|
  {
    if path != "" {
      PlainLength(path[..|path| - 1]);
    }
  }

  lemma LengthSnoc(s: string, c: char)
    requires c != '$'
    ensures PatternLength(s + [c]) == PatternLength(s) + if Escaped(c) then 2 else 1
  {
  }

  /** Two wildcards outweigh a longer rule without special characters. */
  lemma WildcardsWeighMore()
    ensures |"/abc"| > |"/**"| && PatternLength("/abc") < PatternLength("/**")
  {
    PlainLength("/abc");
    PlainLength("/");
    LengthSnoc("/", '*');
    LengthSnoc("/" + ['*'], '*');
    assert "/**" == "/" + ['*'] + ['*'];
  }

  /** So with these two rules a target that matches both, as "/abc" does, is refused although the
      standard allows it. */
  lemma WildcardsForbid(matches: string -> bool)
    requires matches("/abc") && matches("/**")
    ensures var rules := [Rule(true, "/abc"), Rule(false, "/**")];
            && !Allows(rules, matches, PatternLength) && StandardAllows(rules, matches, Octets)
            && !SameOrder(rules, PatternLength, Octets)
  {
    WildcardsWeighMore();
    MeasuresDisagree(matches, "/abc", "/**");
    AgreesExactly([Rule(true, "/abc"), Rule(false, "/**")]);
  }
}
