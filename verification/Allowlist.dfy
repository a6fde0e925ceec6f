/**
 The public file list: generated from the tracked files and the deny rules, printed one path a line, and
 read back by the exporter with its own checks.  Texts are sequences of code points, in whose order UTF-8
 bytes sort.
 */
module Allowlist {
  import opened Lex

  type Text = seq<nat>

  const LF := 10
  const CR := 13
  const SLASH := 47
  const BANG := 33
  const HASH := 35
  const BOM := 0xFEFF
  const MAX_FILES := 2048

  // ---------------------------------------------------------------- deny rules

  datatype Rule = Rule(keep: bool, pattern: Text)

  /** `fnmatch.fnmatchcase`: any function. */
  type Glob = (Text, Text) -> bool

  /** `str.isspace`. */
  predicate IsBlank(c: nat) {
    || 9 <= c <= 13 || 28 <= c <= 32 || c == 0x85 || c == 0xA0 || c == 0x1680 || 0x2000 <= c <= 0x200A
    || c == 0x2028 || c == 0x2029 || c == 0x202F || c == 0x205F || c == 0x3000
  }

  /** Where `str.splitlines` ends a line. */
  predicate IsBreak(c: nat) {
    10 <= c <= 13 || 28 <= c <= 30 || c == 0x85 || c == 0x2028 || c == 0x2029
  }

  /** `str.splitlines`, with `line` the part of the current line already read; CR LF is one break. */
  function LinesFrom(line: Text, text: Text): seq<Text>
    decreases |text|
  {
    if text == [] then (if line == [] then [] else [line])
    else if !IsBreak(text[0]) then LinesFrom(line + [text[0]], text[1..])
    else if text[0] == CR && |text| > 1 && text[1] == LF then [line] + LinesFrom([], text[2..])
    else [line] + LinesFrom([], text[1..])
  }

  function SplitLines(text: Text): seq<Text> {
    LinesFrom([], text)
  }

  /** Every line break is blank, and a blank that breaks no line is a tab, a unit separator or a space. */
  lemma BlanksAndBreaks(c: nat)
    ensures IsBreak(c) <==> c in {10, 11, 12, 13, 28, 29, 30, 133, 8232, 8233}
    ensures IsBlank(c) <==> IsBreak(c) || c in {9, 31, 32, 160, 5760, 8192, 8193, 8194, 8195, 8196, 8197, 8198, 8199, 8200,
      8201, 8202, 8239, 8287, 12288}
  {}

  /** A text without a line break is one line, or none when it is empty. */
  lemma LastLine(line: Text, more: Text)
    requires forall c :: c in more ==> !IsBreak(c)
    ensures LinesFrom(line, more) == if line + more == [] then [] else [line + more]
    decreases |more|
  {
    if more == [] {
      assert line + more == line;
    } else {
      LastLine(line + [more[0]], more[1..]);
      assert line + [more[0]] + more[1..] == line + more;
    }
  }

  /** A break ends the line before it; CR and LF together are one break, in no other order. */
  lemma {:induction false} LineEnds(line: Text, more: Text, rest: Text)
    requires forall c :: c in more ==> !IsBreak(c)
    ensures forall b :: IsBreak(b) && !(b == CR && rest != [] && rest[0] == LF) ==>
      LinesFrom(line, more + [b] + rest) == [line + more] + SplitLines(rest)
    ensures LinesFrom(line, more + [CR, LF] + rest) == [line + more] + SplitLines(rest)
    decreases |more|
  {
    if more == [] {
      assert line + more == line;
      forall b | IsBreak(b) && !(b == CR && rest != [] && rest[0] == LF)
        ensures LinesFrom(line, more + [b] + rest) == [line + more] + SplitLines(rest)
      {
        var t := more + [b] + rest;
        assert t[0] == b && t[1..] == rest;
      }
      var t := more + [CR, LF] + rest;
      assert t[0] == CR && t[1] == LF && t[2..] == rest;
    } else {
      var next := line + [more[0]];
      LineEnds(next, more[1..], rest);
      assert next + more[1..] == line + more;
      forall b | IsBreak(b) && !(b == CR && rest != [] && rest[0] == LF)
        ensures LinesFrom(line, more + [b] + rest) == [line + more] + SplitLines(rest)
      {
        assert (more + [b] + rest)[1..] == more[1..] + [b] + rest;
      }
      assert (more + [CR, LF] + rest)[1..] == more[1..] + [CR, LF] + rest;
    }
  }

  function Strip(line: Text): (r: Text)
    ensures r != [] ==> !IsBlank(r[0]) && !IsBlank(r[|r| - 1])
    decreases |line|
  {
    if line == [] then []
    else if IsBlank(line[0]) then Strip(line[1..])
    else if IsBlank(line[|line| - 1]) then Strip(line[..|line| - 1])
    else line
  }

  /** A stripped line is the line without blanks at its ends, and only blanks are gone. */
  lemma {:induction false} StripDropsBlanks(line: Text) returns (i: nat, j: nat)
    ensures i <= j <= |line| && Strip(line) == line[i..j]
    ensures forall k :: 0 <= k < i || j <= k < |line| ==> IsBlank(line[k])
    decreases |line|
  {
    hide IsBlank;
    i, j := 0, |line|;
    if line != [] && IsBlank(line[0]) {
      i, j := StripDropsBlanks(line[1..]);
      assert line[1..][i..j] == line[i + 1..j + 1];
      forall k | 0 <= k < i + 1 || j + 1 <= k < |line| ensures IsBlank(line[k]) {
        assert k > 0 ==> line[k] == line[1..][k - 1];
      }
      i, j := i + 1, j + 1;
    } else if line != [] && IsBlank(line[|line| - 1]) {
      i, j := StripDropsBlanks(line[..|line| - 1]);
      assert line[..|line| - 1][i..j] == line[i..j];
      forall k | 0 <= k < i || j <= k < |line| ensures IsBlank(line[k]) {
        assert k < |line| - 1 ==> line[k] == line[..|line| - 1][k];
      }
    }
  }

  /** The rule a line states, if it states one. */
  function RuleOf(line: Text): (r: seq<Rule>)
    ensures |r| <= 1
  {
    var s := Strip(line);
    if s == [] || s[0] == HASH then []
    else if s[0] == BANG then [Rule(true, s[1..])]
    else [Rule(false, s)]
  }

  function RulesOf(lines: seq<Text>): seq<Rule> {
    if lines == [] then [] else RulesOf(lines[..|lines| - 1]) + RuleOf(lines[|lines| - 1])
  }

  method ParseDenylist(text: Text) returns (rules: seq<Rule>)
    ensures rules == RulesOf(SplitLines(text))
  {
    var lines := SplitLines(text);
    rules := [];
    var i := 0;
    while i < |lines|
      invariant 0 <= i <= |lines|
      invariant rules == RulesOf(lines[..i])
    {
      var line := Strip(lines[i]);
      assert lines[..i + 1][..i] == lines[..i];
      i := i + 1;
      if line == [] || line[0] == HASH {
        continue;
      }
      var keep := line[0] == BANG;
      rules := rules + [Rule(keep, if keep then line[1..] else line)];
    }
    assert lines[..|lines|] == lines;
  }

  /** A rule as a line of the file. */
  function RuleLine(r: Rule): Text {
    if r.keep then [BANG] + r.pattern else r.pattern
  }

  /** The file that lists these rules, one a line. */
  function RuleText(rules: seq<Rule>): Text {
    if rules == [] then [] else RuleLine(rules[0]) + [LF] + RuleText(rules[1..])
  }

  /** A rule that a line can state: it does not end in a blank, and a plain one begins like no other line. */
  predicate Statable(r: Rule) {
    && (r.keep || r.pattern != [])
    && (r.pattern != [] ==> !IsBlank(r.pattern[|r.pattern| - 1]))
    && (!r.keep ==> !IsBlank(r.pattern[0]) && r.pattern[0] != HASH && r.pattern[0] != BANG)
  }

  lemma StripNothing(line: Text)
    requires line != [] ==> !IsBlank(line[0]) && !IsBlank(line[|line| - 1])
    ensures Strip(line) == line
  {}

  lemma StripBlankEnd(line: Text)
    ensures Strip(line) == line ==> line != [] ==> !IsBlank(line[0]) && !IsBlank(line[|line| - 1])
  {}

  /** The line of a rule states that rule if and only if the rule is one a line can state. */
  lemma LineStatesRule(r: Rule)
    ensures RuleOf(RuleLine(r)) == [r] <==> Statable(r)
  {
    var line := RuleLine(r);
    if r.keep {
      assert line[0] == BANG && line[1..] == r.pattern;
      assert r.pattern != [] ==> line[|line| - 1] == r.pattern[|r.pattern| - 1];
    }
    if Statable(r) {
      StripNothing(line);
    } else if RuleOf(line) == [r] {
      StripShrinks(line);
      StripBlankEnd(line);
      assert false;
    }
  }

  lemma StripShrinks(line: Text)
    ensures |Strip(line)| <= |line| && (|Strip(line)| == |line| ==> Strip(line) == line)
  {}

  predicate OneLine(t: Text) {
    forall i :: 0 <= i < |t| ==> !IsBreak(t[i])
  }

  lemma {:induction false} LineRead(line: Text, more: Text, rest: Text)
    requires OneLine(more)
    ensures LinesFrom(line, more + [LF] + rest) == [line + more] + LinesFrom([], rest)
    decreases |more|
  {
    var text := more + [LF] + rest;
    if more == [] {
      assert text[0] == LF && text[1..] == rest && line + more == line;
    } else {
      assert text[0] == more[0] && text[1..] == more[1..] + [LF] + rest;
      LineRead(line + [more[0]], more[1..], rest);
      assert line + [more[0]] + more[1..] == line + more;
    }
  }

  lemma {:induction false} RuleTextLines(rules: seq<Rule>)
    requires forall i :: 0 <= i < |rules| ==> OneLine(rules[i].pattern)
    ensures |SplitLines(RuleText(rules))| == |rules|
    ensures forall i :: 0 <= i < |rules| ==> SplitLines(RuleText(rules))[i] == RuleLine(rules[i])
    decreases |rules|
  {
    if rules != [] {
      RuleTextLines(rules[1..]);
      assert OneLine(RuleLine(rules[0]));
      LineRead([], RuleLine(rules[0]), RuleText(rules[1..]));
      assert [] + RuleLine(rules[0]) == RuleLine(rules[0]);
    }
  }

  lemma {:induction false} RulesOfLines(rules: seq<Rule>, lines: seq<Text>)
    requires |lines| == |rules| && forall i :: 0 <= i < |rules| ==> RuleOf(lines[i]) == [rules[i]]
    ensures RulesOf(lines) == rules
    decreases |rules|
  {
    if rules != [] {
      var k := |rules| - 1;
      RulesOfLines(rules[..k], lines[..k]);
      assert rules == rules[..k] + [rules[k]];
    }
  }

  /** Rules written one a line are read back, in their order. */
  lemma DenylistRoundTrip(rules: seq<Rule>)
    requires forall i :: 0 <= i < |rules| ==> Statable(rules[i]) && OneLine(rules[i].pattern)
    ensures RulesOf(SplitLines(RuleText(rules))) == rules
  {
    hide RuleOf, Statable, SplitLines, RuleText;
    RuleTextLines(rules);
    forall i | 0 <= i < |rules| ensures RuleOf(RuleLine(rules[i])) == [rules[i]] {
      LineStatesRule(rules[i]);
    }
    RulesOfLines(rules, SplitLines(RuleText(rules)));
  }

  lemma {:induction false} RulesAppend(a: seq<Text>, b: seq<Text>)
    ensures RulesOf(a + b) == RulesOf(a) + RulesOf(b)
    decreases |b|
  {
    hide RuleOf;
    if b == [] {
      assert a + b == a;
    } else {
      RulesAppend(a, b[..|b| - 1]);
      assert (a + b)[..|a + b| - 1] == a + b[..|b| - 1];
    }
  }

  /** Blank lines and comments between the rules change nothing. */
  lemma OtherLinesIgnored(lines: seq<Text>, extra: Text, more: seq<Text>)
    requires Strip(extra) == [] || Strip(extra)[0] == HASH
    ensures RulesOf(lines + [extra] + more) == RulesOf(lines + more)
  {
    hide Strip, RulesOf;
    RulesAppend(lines + [extra], more);
    RulesAppend(lines, [extra]);
    RulesAppend(lines, more);
    OneRule(extra);
  }

  lemma OneRule(line: Text)
    ensures RulesOf([line]) == RuleOf(line)
  {
    hide Strip, RuleOf;
    assert [line][..0] == [];
  }

  predicate Matches(glob: Glob, pattern: Text, path: Text) {
    if pattern != [] && pattern[|pattern| - 1] == SLASH then pattern <= path else glob(pattern, path)
  }

  predicate EndsInSlash(pattern: Text) {
    pattern != [] && pattern[|pattern| - 1] == SLASH
  }

  lemma MatchesIs(glob: Glob, pattern: Text, path: Text)
    ensures Matches(glob, pattern, path) == if EndsInSlash(pattern) then pattern <= path else glob(pattern, path)
  {}

  /** Rule `k` is the last that matches the path, and denies it. */
  predicate DeniedBy(glob: Glob, rules: seq<Rule>, path: Text, k: nat) {
    && k < |rules| && Matches(glob, rules[k].pattern, path) && !rules[k].keep
    && forall j :: k < j < |rules| ==> !Matches(glob, rules[j].pattern, path)
  }

  predicate Denied(glob: Glob, rules: seq<Rule>, path: Text) {
    exists k: nat :: k < |rules| && DeniedBy(glob, rules, path, k)
  }

  lemma DeniedNext(glob: Glob, rules: seq<Rule>, path: Text, i: nat)
    requires i < |rules|
    ensures Denied(glob, rules[..i + 1], path) ==
      if Matches(glob, rules[i].pattern, path) then !rules[i].keep else Denied(glob, rules[..i], path)
  {
    hide Matches;
    var less, more := rules[..i], rules[..i + 1];
    if Matches(glob, rules[i].pattern, path) {
      assert more[i] == rules[i];
      if !rules[i].keep {
        assert DeniedBy(glob, more, path, i);
      }
    } else {
      forall k: nat | k < i ensures DeniedBy(glob, more, path, k) == DeniedBy(glob, less, path, k) {
        assert more[k] == less[k];
        assert forall j :: k < j < i ==> more[j] == less[j];
        assert forall j :: k < j < |more| ==> j == i || more[j] == less[j];
      }
    }
  }

  /** A file is denied exactly when the last rule that matches it denies it. */
  method IsDenied(glob: Glob, rules: seq<Rule>, path: Text) returns (denied: bool)
    ensures denied == Denied(glob, rules, path)
  {
    hide Denied, Matches;
    denied := false;
    NoRuleDenies(glob, rules, path);
    var i := 0;
    while i < |rules|
      invariant 0 <= i <= |rules|
      invariant denied == Denied(glob, rules[..i], path)
    {
      DeniedNext(glob, rules, path, i);
      var pattern := rules[i].pattern;
      var matches := if EndsInSlash(pattern) then pattern <= path else glob(pattern, path);
      MatchesIs(glob, pattern, path);
      if matches {
        denied := !rules[i].keep;
      }
      i := i + 1;
    }
    assert rules[..|rules|] == rules;
  }

  lemma NoRuleDenies(glob: Glob, rules: seq<Rule>, path: Text)
    ensures !Denied(glob, rules[..0], path)
  {}

  lemma LastRule(glob: Glob, rules: seq<Rule>, r: Rule, path: Text)
    ensures Denied(glob, rules + [r], path) == if Matches(glob, r.pattern, path) then !r.keep else Denied(glob, rules, path)
  {
    hide Denied, Matches;
    var more := rules + [r];
    DeniedNext(glob, more, path, |rules|);
    assert more[..|rules| + 1] == more && more[..|rules|] == rules;
  }

  /** Without rules nothing is denied. */
  lemma NothingDenied(glob: Glob, path: Text)
    ensures !Denied(glob, [], path)
  {}

  /** A directory rule decides every path under the directory, whatever came before it, and no other path. */
  lemma DirectoryRuleDecides(glob: Glob, rules: seq<Rule>, keep: bool, d: Text, path: Text)
    ensures (exists rest :: path == d + [SLASH] + rest) ==> Denied(glob, rules + [Rule(keep, d + [SLASH])], path) == !keep
    ensures !(exists rest :: path == d + [SLASH] + rest) ==>
      Denied(glob, rules + [Rule(keep, d + [SLASH])], path) == Denied(glob, rules, path)
  {
    hide Denied;
    var dir := d + [SLASH];
    LastRule(glob, rules, Rule(keep, dir), path);
    if dir <= path {
      assert path == d + [SLASH] + path[|dir|..];
    }
  }

  /** Any other rule decides the paths its glob accepts. */
  lemma PatternRuleDecides(glob: Glob, rules: seq<Rule>, keep: bool, pattern: Text, path: Text)
    requires pattern != [] ==> pattern[|pattern| - 1] != SLASH
    ensures Denied(glob, rules + [Rule(keep, pattern)], path) == if glob(pattern, path) then !keep else Denied(glob, rules, path)
  {
    hide Denied;
    LastRule(glob, rules, Rule(keep, pattern), path);
  }

  // ---------------------------------------------------------------- sorted sets of paths

  predicate Ascending(s: seq<Text>) {
    forall i, j :: 0 <= i < j < |s| ==> LexLe(s[i], s[j]) && s[i] != s[j]
  }

  function Insert(s: seq<Text>, p: Text): (r: seq<Text>)
    ensures forall x :: x in r <==> x in s || x == p
  {
    if s == [] then [p]
    else
      var k := |s| - 1;
      assert forall x :: x in s <==> x in s[..k] || x == s[k];
      if s[k] == p then s
      else if LexLe(s[k], p) then s + [p]
      else Insert(s[..k], p) + [s[k]]
  }

  /** `sorted(set(s))`. */
  function SortedSet(s: seq<Text>): (r: seq<Text>)
    ensures forall x :: x in r <==> x in s
  {
    if s == [] then [] else Insert(SortedSet(s[..|s| - 1]), s[|s| - 1])
  }

  lemma {:induction false} InsertAscends(s: seq<Text>, p: Text)
    requires Ascending(s)
    ensures Ascending(Insert(s, p))
  {
    hide LexLe;
    if s != [] && s[|s| - 1] != p {
      var k := |s| - 1;
      LexOrder(s[k], p);
      if LexLe(s[k], p) {
        AppendAscends(s, p);
      } else {
        InsertAscends(s[..k], p);
        PushAscends(s, Insert(s[..k], p), p);
      }
    }
  }

  lemma AppendAscends(s: seq<Text>, p: Text)
    requires Ascending(s) && s != [] && LexLe(s[|s| - 1], p) && s[|s| - 1] != p
    ensures Ascending(s + [p])
  {
    hide LexLe;
    var k := |s| - 1;
    forall i | 0 <= i < |s| ensures LexLe(s[i], p) && s[i] != p {
      if i < k {
        LexTransitive(s[i], s[k], p);
        LexOrder(s[i], s[k]);
      }
    }
  }

  /** The last element goes back behind a list of the others and a smaller one. */
  lemma PushAscends(s: seq<Text>, r: seq<Text>, p: Text)
    requires Ascending(s) && s != [] && Ascending(r) && LexLe(p, s[|s| - 1]) && p != s[|s| - 1]
    requires forall x :: x in r ==> x in s[..|s| - 1] || x == p
    ensures Ascending(r + [s[|s| - 1]])
  {
    hide LexLe;
    forall i | 0 <= i < |r| ensures LexLe(r[i], s[|s| - 1]) && r[i] != s[|s| - 1] {
      assert r[i] in r;
    }
  }

  lemma {:induction false} SortedSetAscends(s: seq<Text>)
    ensures Ascending(SortedSet(s))
  {
    if s != [] {
      SortedSetAscends(s[..|s| - 1]);
      InsertAscends(SortedSet(s[..|s| - 1]), s[|s| - 1]);
    }
  }

  lemma LastIsGreatest(s: seq<Text>, p: Text)
    requires Ascending(s) && p in s
    ensures LexLe(p, s[|s| - 1])
  {
    LexOrder(p, p);
  }

  ghost predicate SameElements(s: seq<Text>, t: seq<Text>) {
    forall p :: p in s <==> p in t
  }

  lemma DropOne(s: seq<Text>) returns (most: seq<Text>, last: Text)
    requires Ascending(s) && s != []
    ensures most == s[..|s| - 1] && last == s[|s| - 1] && s == most + [last]
    ensures Ascending(most) && forall p :: p in most <==> p in s && p != last
  {
    hide LexLe;
    most, last := s[..|s| - 1], s[|s| - 1];
  }

  /** A set of paths has one ascending list. */
  lemma {:induction false} AscendingIsUnique(s: seq<Text>, t: seq<Text>)
    requires Ascending(s) && Ascending(t) && SameElements(s, t)
    ensures s == t
    decreases |s|
  {
    hide LexLe, Ascending;
    assert t != [] ==> t[0] in t;
    if s != [] {
      assert s[0] in t;
      LastIsGreatest(s, t[|t| - 1]);
      LastIsGreatest(t, s[|s| - 1]);
      LexOrder(s[|s| - 1], t[|t| - 1]);
      var a, x := DropOne(s);
      var b, y := DropOne(t);
      AscendingIsUnique(a, b);
    }
  }

  // ---------------------------------------------------------------- generating

  datatype Names = Names(allowlist: Text, denylist: Text)

  predicate IsUnused(glob: Glob, files: seq<Text>, pattern: Text) {
    forall i :: 0 <= i < |files| ==> !Matches(glob, pattern, files[i])
  }

  function Unused(glob: Glob, rules: seq<Rule>, files: seq<Text>): seq<Text> {
    if rules == [] then []
    else
      var last := rules[|rules| - 1].pattern;
      Unused(glob, rules[..|rules| - 1], files) + if IsUnused(glob, files, last) then [last] else []
  }

  /** The comprehension over the tracked files. */
  method Shown(glob: Glob, rules: seq<Rule>, files: seq<Text>) returns (shown: seq<Text>)
    ensures forall p :: p in shown <==> p in files && !Denied(glob, rules, p)
  {
    hide Denied;
    shown := [];
    var i := 0;
    while i < |files|
      invariant 0 <= i <= |files|
      invariant forall p :: p in shown <==> p in files[..i] && !Denied(glob, rules, p)
    {
      var denied := IsDenied(glob, rules, files[i]);
      assert forall p :: p in files[..i + 1] <==> p in files[..i] || p == files[i];
      if !denied {
        shown := shown + [files[i]];
      }
      i := i + 1;
    }
    assert files[..|files|] == files;
  }

  method Generate(glob: Glob, denylist: Text, files: seq<Text>, names: Names) returns (list: seq<Text>, unused: seq<Text>)
    ensures Ascending(list)
    ensures forall p :: p in list <==>
      (p in files && !Denied(glob, RulesOf(SplitLines(denylist)), p)) || p == names.allowlist || p == names.denylist
    ensures unused == Unused(glob, RulesOf(SplitLines(denylist)), files)
  {
    hide Denied, Ascending, IsUnused, SortedSet, RulesOf, SplitLines, Unused;
    var rules := ParseDenylist(denylist);
    var shown := Shown(glob, rules, files);
    if names.allowlist !in shown {
      shown := shown + [names.allowlist];
    }
    if names.denylist !in shown {
      shown := shown + [names.denylist];
    }
    SortedSetAscends(shown);
    list := SortedSet(shown);
    unused := UnusedPatterns(glob, rules, files);
  }

  method AnyMatch(glob: Glob, pattern: Text, files: seq<Text>) returns (any: bool)
    ensures any == !IsUnused(glob, files, pattern)
  {
    var i := 0;
    while i < |files|
      invariant 0 <= i <= |files| && forall j :: 0 <= j < i ==> !Matches(glob, pattern, files[j])
    {
      var matches := if EndsInSlash(pattern) then pattern <= files[i] else glob(pattern, files[i]);
      MatchesIs(glob, pattern, files[i]);
      if matches {
        return true;
      }
      i := i + 1;
    }
    return false;
  }

  method UnusedPatterns(glob: Glob, rules: seq<Rule>, files: seq<Text>) returns (unused: seq<Text>)
    ensures unused == Unused(glob, rules, files)
  {
    hide IsUnused;
    unused := [];
    var i := 0;
    while i < |rules|
      invariant 0 <= i <= |rules|
      invariant unused == Unused(glob, rules[..i], files)
    {
      assert rules[..i + 1][..i] == rules[..i];
      var used := AnyMatch(glob, rules[i].pattern, files);
      if !used {
        unused := unused + [rules[i].pattern];
      }
      i := i + 1;
    }
    assert rules[..|rules|] == rules;
  }

  /** A pattern is reported exactly when a rule states it and no tracked file is under it or accepted by it. */
  lemma {:induction false} UnusedHas(glob: Glob, rules: seq<Rule>, files: seq<Text>, p: Text)
    ensures p in Unused(glob, rules, files) <==>
      && (exists i :: 0 <= i < |rules| && rules[i].pattern == p)
      && forall i :: 0 <= i < |files| ==>
           !if p != [] && p[|p| - 1] == SLASH then p <= files[i] else glob(p, files[i])
  {
    if rules != [] {
      var k := |rules| - 1;
      UnusedHas(glob, rules[..k], files, p);
      assert (exists i :: 0 <= i < |rules| && rules[i].pattern == p) <==>
        rules[k].pattern == p || exists i :: 0 <= i < k && rules[..k][i].pattern == p;
    }
  }

  /**
   With the directory as the last line of the deny list nothing under it is listed but the two required files,
   and everything else is listed as the lines before decide.
   */
  method HideDirectory(glob: Glob, rules: seq<Rule>, d: Text, files: seq<Text>, names: Names) returns (list: seq<Text>)
    requires forall i :: 0 <= i < |rules| ==> Statable(rules[i]) && OneLine(rules[i].pattern)
    requires Statable(Rule(false, d + [SLASH])) && OneLine(d + [SLASH])
    ensures forall rest :: d + [SLASH] + rest in list ==>
      d + [SLASH] + rest == names.allowlist || d + [SLASH] + rest == names.denylist
    ensures forall p :: p in files && !(d + [SLASH] <= p) ==>
      (p in list <==> !Denied(glob, rules, p) || p == names.allowlist || p == names.denylist)
  {
    hide Denied, Ascending, RulesOf, SplitLines, Statable, OneLine, RuleText;
    var all := rules + [Rule(false, d + [SLASH])];
    DenylistRoundTrip(all);
    var unused;
    list, unused := Generate(glob, RuleText(all), files, names);
    forall p ensures d + [SLASH] <= p ==> Denied(glob, all, p)
             ensures !(d + [SLASH] <= p) ==> Denied(glob, all, p) == Denied(glob, rules, p) {
      DirectoryRuleDecides(glob, rules, false, d, p);
      if d + [SLASH] <= p {
        assert p == d + [SLASH] + p[|d| + 1..];
      }
    }
  }

  // ---------------------------------------------------------------- printing and splitting

  function Join(paths: seq<Text>): Text
    requires paths != []
  {
    if |paths| == 1 then paths[0] else Join(paths[..|paths| - 1]) + [LF] + paths[|paths| - 1]
  }

  function Print(paths: seq<Text>): Text
    requires paths != []
  {
    Join(paths) + [LF]
  }

  function Split(t: Text): (lines: seq<Text>)
    ensures lines != []
  {
    if t == [] then [[]]
    else
      var before := Split(t[..|t| - 1]);
      var c := t[|t| - 1];
      if c == LF then before + [[]] else before[|before| - 1 := before[|before| - 1] + [c]]
  }

  lemma {:induction false} SplitExtends(t: Text, p: Text)
    requires LF !in p
    ensures Split(t + p) == Split(t)[|Split(t)| - 1 := Split(t)[|Split(t)| - 1] + p]
    decreases |p|
  {
    if p == [] {
      assert t + p == t;
      assert Split(t)[|Split(t)| - 1] + p == Split(t)[|Split(t)| - 1];
    } else {
      var q, c := p[..|p| - 1], p[|p| - 1];
      SplitExtends(t, q);
      assert (t + p)[..|t + p| - 1] == t + q;
      assert Split(t)[|Split(t)| - 1] + q + [c] == Split(t)[|Split(t)| - 1] + p;
    }
  }

  lemma SplitLine(t: Text, p: Text)
    requires LF !in p
    ensures Split(t + [LF] + p) == Split(t) + [p]
  {
    hide Split;
    SplitBreaks(t);
    SplitExtends(t + [LF], p);
    assert [] + p == p;
  }

  lemma SplitBreaks(t: Text)
    ensures Split(t + [LF]) == Split(t) + [[]]
  {
    assert (t + [LF])[..|t|] == t;
  }

  lemma SplitOne(p: Text)
    requires LF !in p
    ensures Split(p) == [p]
  {
    SplitExtends([], p);
    assert [] + p == p;
  }

  lemma {:induction false} SplitJoin(paths: seq<Text>)
    requires paths != [] && forall i :: 0 <= i < |paths| ==> LF !in paths[i]
    ensures Split(Join(paths)) == paths
  {
    hide Split;
    var k := |paths| - 1;
    if k == 0 {
      SplitOne(paths[0]);
    } else {
      SplitJoin(paths[..k]);
      SplitLine(Join(paths[..k]), paths[k]);
    }
  }

  /** A tracked name with a line feed in it prints as two. */
  lemma LineFeedIsTwoPaths(before: seq<Text>, a: Text, b: Text)
    ensures Print(before + [a + [LF] + b]) == Print(before + [a, b])
  {
    var one, two := before + [a + [LF] + b], before + [a, b];
    assert two[..|two| - 1] == before + [a];
    assert one[..|one| - 1] == before && (before + [a])[..|before|] == before;
    if before == [] {
      assert before + [a] == [a] && one == [a + [LF] + b];
      assert Join(one) == a + [LF] + b && Join([a]) == a;
      assert Join(two) == Join([a]) + [LF] + b;
    } else {
      assert Join(one) == Join(before) + [LF] + (a + [LF] + b);
      assert Join(two) == Join(before) + [LF] + a + [LF] + b;
    }
  }

  // ---------------------------------------------------------------- reading back

  /** What of the path checks is not about lines: any predicate; and case folding: any function. */
  datatype Checks = Checks(other: Text -> bool, fold: Text -> Text)

  datatype Objection = ByteOrderMark | NotLines | EmptyLine | BadPath | Duplicate | TooMany | Unsorted | Collision

  datatype Outcome = Parsed(paths: seq<Text>) | Refused(why: Objection)

  predicate ValidPath(checks: Checks, p: Text) {
    p != [] && (forall i :: 0 <= i < |p| ==> p[i] >= 32 && p[i] != 127) && checks.other(p)
  }

  predicate AllValid(checks: Checks, paths: seq<Text>) {
    forall i :: 0 <= i < |paths| ==> ValidPath(checks, paths[i])
  }

  predicate Distinct(paths: seq<Text>) {
    forall i, j :: 0 <= i < j < |paths| ==> paths[i] != paths[j]
  }

  predicate Folded(checks: Checks, paths: seq<Text>) {
    forall i, j :: 0 <= i < j < |paths| ==> checks.fold(paths[i]) != checks.fold(paths[j])
  }

  predicate HasEmpty(paths: seq<Text>) {
    exists i :: 0 <= i < |paths| && paths[i] == []
  }

  /** The exporter's checks, in the order it makes them. */
  function Verdict(checks: Checks, raw: Text): Outcome {
    if raw != [] && raw[0] == BOM then Refused(ByteOrderMark)
    else if CR in raw || raw == [] || raw[|raw| - 1] != LF then Refused(NotLines)
    else
      var paths := Split(raw[..|raw| - 1]);
      if HasEmpty(paths) then Refused(EmptyLine)
      else if !AllValid(checks, paths) then Refused(BadPath)
      else if !Distinct(paths) then Refused(Duplicate)
      else if |paths| > MAX_FILES then Refused(TooMany)
      else if paths != SortedSet(paths) then Refused(Unsorted)
      else if !Folded(checks, paths) then Refused(Collision)
      else Parsed(paths)
  }

  lemma PathIsBad(checks: Checks, p: Text)
    requires p == [] || (exists c :: c in p && (c < 32 || c == 127)) || !checks.other(p)
    ensures !ValidPath(checks, p)
  {
    if c :| c in p && (c < 32 || c == 127) {
      var i :| 0 <= i < |p| && p[i] == c;
    }
  }

  lemma PathIsGood(checks: Checks, p: Text)
    requires p != [] && checks.other(p) && forall c :: c in p ==> 32 <= c != 127
    ensures ValidPath(checks, p)
  {
    assert forall i :: 0 <= i < |p| ==> p[i] in p;
  }

  method Parse(checks: Checks, raw: Text) returns (r: Outcome)
    ensures r == Verdict(checks, raw)
  {
    hide Split, SortedSet, ValidPath;
    if raw != [] && raw[0] == BOM {
      return Refused(ByteOrderMark);
    }
    if CR in raw || raw == [] || raw[|raw| - 1] != LF {
      return Refused(NotLines);
    }
    var paths := Split(raw[..|raw| - 1]);
    if HasEmpty(paths) {
      return Refused(EmptyLine);
    }
    var i := 0;
    while i < |paths|
      invariant 0 <= i <= |paths| && AllValid(checks, paths[..i])
    {
      if paths[i] == [] || (exists c :: c in paths[i] && (c < 32 || c == 127)) || !checks.other(paths[i]) {
        PathIsBad(checks, paths[i]);
        return Refused(BadPath);
      }
      PathIsGood(checks, paths[i]);
      i := i + 1;
    }
    assert paths[..|paths|] == paths;
    if exists j, k :: 0 <= j < k < |paths| && paths[j] == paths[k] {
      return Refused(Duplicate);
    }
    if |paths| > MAX_FILES {
      return Refused(TooMany);
    }
    if paths != SortedSet(paths) {
      return Refused(Unsorted);
    }
    var clear := NoCollision(checks, paths);
    return if clear then Parsed(paths) else Refused(Collision);
  }

  method NoCollision(checks: Checks, paths: seq<Text>) returns (clear: bool)
    ensures clear == Folded(checks, paths)
  {
    var folded: set<Text> := {};
    var i := 0;
    while i < |paths|
      invariant 0 <= i <= |paths|
      invariant forall k :: k in folded <==> exists j :: 0 <= j < i && checks.fold(paths[j]) == k
      invariant forall j, k :: 0 <= j < k < i ==> checks.fold(paths[j]) != checks.fold(paths[k])
    {
      var key := checks.fold(paths[i]);
      if key in folded {
        return false;
      }
      folded := folded + {key};
      i := i + 1;
    }
    return true;
  }

  // ---------------------------------------------------------------- the round trip

  /** What a caller can check of a list before printing it. */
  predicate Exportable(checks: Checks, list: seq<Text>) {
    list != [] && AllValid(checks, list) && |list| <= MAX_FILES && Folded(checks, list) && list[0] != [] && list[0][0] != BOM
  }

  lemma {:induction false} JoinStarts(paths: seq<Text>)
    requires paths != [] && paths[0] != []
    ensures Join(paths) != [] && Join(paths)[0] == paths[0][0]
  {
    if |paths| > 1 {
      JoinStarts(paths[..|paths| - 1]);
    }
  }

  lemma {:induction false} JoinHas(paths: seq<Text>, c: nat)
    requires paths != [] && c in Join(paths)
    ensures c == LF || exists i :: 0 <= i < |paths| && c in paths[i]
  {
    if |paths| > 1 {
      var k := |paths| - 1;
      if c in paths[k] {
      } else if c != LF {
        JoinHas(paths[..k], c);
        var i :| 0 <= i < k && c in paths[..k][i];
        assert c in paths[i];
      }
    } else if c in Join(paths) {
      assert c in paths[0];
    }
  }

  lemma NoControls(checks: Checks, list: seq<Text>)
    requires list != [] && AllValid(checks, list)
    ensures CR !in Print(list) && forall i :: 0 <= i < |list| ==> LF !in list[i]
  {
    forall i | 0 <= i < |list| ensures LF !in list[i] && CR !in list[i] {
      assert ValidPath(checks, list[i]);
    }
    if CR in Join(list) {
      JoinHas(list, CR);
    }
  }

  /** An ascending list is its own sorted set. */
  lemma AscendingIsSorted(s: seq<Text>)
    requires Ascending(s)
    ensures SortedSet(s) == s && Distinct(s)
  {
    SortedSetAscends(s);
    AscendingIsUnique(SortedSet(s), s);
  }

  /** The exporter reads back exactly the generated list if and only if the list passes its checks. */
  lemma RoundTrip(checks: Checks, list: seq<Text>)
    requires list != [] && Ascending(list)
    ensures Verdict(checks, Print(list)) == Parsed(list) <==> Exportable(checks, list)
  {
    hide Join, Split, SortedSet, ValidPath, Ascending;
    var raw := Print(list);
    assert raw[..|raw| - 1] == Join(list) && raw[|raw| - 1] == LF;
    AscendingIsSorted(list);
    if AllValid(checks, list) {
      NoneEmpty(checks, list);
      JoinStarts(list);
      NoControls(checks, list);
      SplitJoin(list);
    }
  }

  lemma NoneEmpty(checks: Checks, list: seq<Text>)
    requires AllValid(checks, list)
    ensures !HasEmpty(list)
  {
    forall i | 0 <= i < |list| ensures list[i] != [] {
      assert ValidPath(checks, list[i]);
    }
  }

  /** Everything the exporter accepts is an exportable, ascending list, and prints as it was read. */
  lemma AcceptedIsExportable(checks: Checks, raw: Text)
    requires Verdict(checks, raw).Parsed?
    ensures var list := Verdict(checks, raw).paths;
      Exportable(checks, list) && Ascending(list) && Print(list) == raw
      && 0 < |list| <= 2048 && forall i :: 0 <= i < |list| ==>
           list[i] != [] && checks.other(list[i]) && forall c :: c in list[i] ==> 32 <= c != 127
  {
    hide Join, Split, SortedSet, ValidPath, LexLe;
    var list := Verdict(checks, raw).paths;
    JoinSplit(raw[..|raw| - 1]);
    SortedSetAscends(list);
    FirstIsSplit(checks, raw, list);
    ValidHasNoControls(checks, list);
  }

  lemma ValidHasNoControls(checks: Checks, list: seq<Text>)
    requires AllValid(checks, list)
    ensures forall i :: 0 <= i < |list| ==>
      list[i] != [] && checks.other(list[i]) && forall c :: c in list[i] ==> 32 <= c != 127
  {
    forall i | 0 <= i < |list|
      ensures list[i] != [] && checks.other(list[i]) && forall c :: c in list[i] ==> 32 <= c != 127
    {
      assert ValidPath(checks, list[i]);
    }
  }

  lemma FirstIsSplit(checks: Checks, raw: Text, list: seq<Text>)
    requires raw != [] && raw[0] != BOM && list != [] && AllValid(checks, list) && Join(list) == raw[..|raw| - 1]
    ensures list[0] != [] && list[0][0] != BOM
  {
    assert ValidPath(checks, list[0]);
    JoinStarts(list);
  }

  lemma {:induction false} JoinLast(lines: seq<Text>, c: nat)
    requires lines != []
    ensures Join(lines[|lines| - 1 := lines[|lines| - 1] + [c]]) == Join(lines) + [c]
  {
    var k := |lines| - 1;
    assert lines[k := lines[k] + [c]][..k] == lines[..k];
  }

  lemma {:induction false} JoinSplit(t: Text)
    ensures Join(Split(t)) == t
  {
    if t != [] {
      var before, c := Split(t[..|t| - 1]), t[|t| - 1];
      JoinSplit(t[..|t| - 1]);
      if c == LF {
        assert (before + [[]])[..|before|] == before;
      } else {
        JoinLast(before, c);
      }
    }
  }

  /**
   The generator and the exporter together: the exporter reads back exactly the ascending list of what is not
   denied if and only if that list passes its checks, and whatever it reads prints as the generated bytes.
   */
  method GenerateThenParse(glob: Glob, checks: Checks, denylist: Text, files: seq<Text>, names: Names)
    returns (list: seq<Text>, raw: Text, r: Outcome)
    ensures Ascending(list) && list != [] && raw == Print(list)
    ensures forall p :: p in list <==>
      (p in files && !Denied(glob, RulesOf(SplitLines(denylist)), p)) || p == names.allowlist || p == names.denylist
    ensures r == Parsed(list) <==> Exportable(checks, list)
    ensures r.Parsed? ==> r.paths != [] && Print(r.paths) == raw && Exportable(checks, r.paths) && Ascending(r.paths)
  {
    hide Denied, Ascending, RulesOf, SplitLines, Join, Exportable;
    var unused;
    list, unused := Generate(glob, denylist, files, names);
    assert names.allowlist in list;
    raw := Print(list);
    RoundTrip(checks, list);
    r := Parse(checks, raw);
    if r.Parsed? {
      AcceptedIsExportable(checks, raw);
      ExportableIsNotEmpty(checks, r.paths);
    }
  }

  lemma ExportableIsNotEmpty(checks: Checks, list: seq<Text>)
    requires Exportable(checks, list)
    ensures list != []
  {}
}
