/** The policy glob: compilation, the two greedy matchers, and what they decide. */
module Glob {
  import opened Wrappers
  import opened Text

  datatype Unit = Literal(c: char) | Star | Question

  datatype Segment = DoubleStar | Pattern(units: seq<Unit>)

  datatype Glob = Glob(raw: string, segments: seq<Segment>)

  datatype GlobError = Empty | TooManyStars | MalformedDoubleStar | UnsupportedSyntax

  // ----- one component against the units of a normal segment -----

  predicate UnitAccepts(u: Unit, c: char) {
    u.Question? || (u.Literal? && u.c == c)
  }

  /** The items from `i` on match the characters from `j` on: `*` absorbs any run of them, every
      other item exactly one that it accepts. */
  predicate UnitsMatchFrom(units: seq<Unit>, text: string, i: nat, j: nat)
    requires i <= |units| && j <= |text|
    decreases |units| - i, |text| - j
  {
    if i == |units| then j == |text|
    else if units[i].Star? then
      UnitsMatchFrom(units, text, i + 1, j) || (j < |text| && UnitsMatchFrom(units, text, i, j + 1))
    else
      j < |text| && UnitAccepts(units[i], text[j]) && UnitsMatchFrom(units, text, i + 1, j + 1)
  }

  /** Do the items from `next` on match some rest of the text that starts at `from` or later? */
  ghost predicate UnitsMatchSomewhere(units: seq<Unit>, text: string, next: nat, from: nat)
    requires next <= |units|
  {
    exists k :: from <= k <= |text| && UnitsMatchFrom(units, text, next, k)
  }

  /** The declarative reading of a star: it takes some number of characters, any number. */
  lemma {:induction false} UnitsStarTakesAnyRun(units: seq<Unit>, text: string, i: nat, j: nat)
    requires i < |units| && units[i].Star? && j <= |text|
    ensures UnitsMatchFrom(units, text, i, j) <==> UnitsMatchSomewhere(units, text, i + 1, j)
    decreases |text| - j
  {
    if j < |text| {
      UnitsStarTakesAnyRun(units, text, i, j + 1);
      assert UnitsMatchSomewhere(units, text, i + 1, j) <==>
        UnitsMatchFrom(units, text, i + 1, j) || UnitsMatchSomewhere(units, text, i + 1, j + 1);
    }
  }

  /** Items that are no stars consume one character each. */
  lemma {:induction false} UnitsFixedWidth(units: seq<Unit>, text: string, i: nat, upto: nat, j: nat)
    requires i <= upto <= |units| && j <= |text|
    requires forall m :: i <= m < upto ==> !units[m].Star?
    requires UnitsMatchFrom(units, text, i, j)
    ensures j + (upto - i) <= |text| && UnitsMatchFrom(units, text, upto, j + (upto - i))
    ensures forall m :: i <= m < upto ==> UnitAccepts(units[m], text[j + (m - i)])
    decreases upto - i
  {
    if i < upto {
      UnitsFixedWidth(units, text, i + 1, upto, j + 1);
    }
  }

  /** Only stars match the empty rest. */
  lemma {:induction false} UnitsEmptyRest(units: seq<Unit>, text: string, i: nat)
    requires i <= |units|
    ensures UnitsMatchFrom(units, text, i, |text|) <==> forall m :: i <= m < |units| ==> units[m].Star?
    decreases |units| - i
  {
    if i < |units| {
      UnitsEmptyRest(units, text, i + 1);
    }
  }

  /** Does the pattern after the saved star match some rest that starts after `from`? */
  ghost predicate UnitsMatchLater(units: seq<Unit>, text: string, saved: Option<nat>, from: nat)
  {
    saved.Some? && saved.value < |units| && UnitsMatchSomewhere(units, text, saved.value + 1, from + 1)
  }

  /** A new star makes every alternative of the older one redundant. */
  lemma UnitsNewestStarSuffices(units: seq<Unit>, text: string, saved: Option<nat>, from: nat, i: nat, j: nat)
    requires i < |units| && units[i].Star? && from <= j <= |text|
    requires saved.Some? ==> saved.value < i && j - from == i - (saved.value + 1)
    requires saved.Some? ==> forall m :: saved.value < m < i ==> !units[m].Star?
    ensures UnitsMatchFrom(units, text, i, j) || UnitsMatchLater(units, text, saved, from) <==>
            UnitsMatchFrom(units, text, i + 1, j) || UnitsMatchLater(units, text, Some(i), j)
  {
    UnitsStarTakesAnyRun(units, text, i, j);
    if UnitsMatchLater(units, text, saved, from) {
      var next := saved.value + 1;
      var k :| from < k <= |text| && UnitsMatchFrom(units, text, next, k);
      UnitsFixedWidth(units, text, saved.value + 1, i, k);
      var landed := k + (i - (saved.value + 1));
      UnitsStarTakesAnyRun(units, text, i, landed);
    }
  }

  /** When the text is used up, no alternative of the saved star is left. */
  lemma UnitsNothingLater(units: seq<Unit>, text: string, saved: Option<nat>, from: nat, i: nat)
    requires i <= |units| && from <= |text|
    requires saved.Some? ==> saved.value < i && |text| - from == i - (saved.value + 1)
    requires saved.Some? ==> forall m :: saved.value < m < i ==> !units[m].Star?
    ensures !UnitsMatchLater(units, text, saved, from)
  {
    if UnitsMatchLater(units, text, saved, from) {
      var next := saved.value + 1;
      var k :| from < k <= |text| && UnitsMatchFrom(units, text, next, k);
      UnitsFixedWidth(units, text, saved.value + 1, i, k);
    }
  }

  predicate UnitsMatch(units: seq<Unit>, component: string) {
    UnitsMatchFrom(units, component, 0, 0)
  }

  method MatchUnits(units: seq<Unit>, component: string) returns (matched: bool)
    ensures matched == UnitsMatch(units, component)
  {
    var text := component;
    var ui: nat, ti: nat := 0, 0;
    var starUi: Option<nat> := None;
    var starTi: nat := 0;
    while ti < |text|
      invariant starTi <= ti <= |text| && ui <= |units|
      invariant starUi.Some? ==> starUi.value < ui && units[starUi.value].Star?
      invariant starUi.Some? ==> ti - starTi == ui - (starUi.value + 1)
      invariant starUi.Some? ==> forall m :: starUi.value < m < ui ==> !units[m].Star?
      invariant UnitsMatch(units, text) <==>
                UnitsMatchFrom(units, text, ui, ti) || UnitsMatchLater(units, text, starUi, starTi)
      decreases |text| - starTi, if starUi.Some? then |units| - starUi.value else |units| + 1, |units| - ui
    {
      if ui < |units| {
        match units[ui]
        case Literal(c) =>
          if text[ti] == c {
            ui, ti := ui + 1, ti + 1;
            continue;
          }
        case Question =>
          ui, ti := ui + 1, ti + 1;
          continue;
        case Star =>
          UnitsNewestStarSuffices(units, text, starUi, starTi, ui, ti);
          starUi, starTi, ui := Some(ui), ti, ui + 1;
          continue;
      }
      match starUi
      case Some(sui) =>
        ui, starTi := sui + 1, starTi + 1;
        ti := starTi;
      case None => return false;
    }
    UnitsNothingLater(units, text, starUi, starTi, ui);
    UnitsEmptyRest(units, text, ui);
    ghost var rest := ui;
    while ui < |units| && units[ui].Star?
      invariant rest <= ui <= |units|
      invariant forall m :: rest <= m < ui ==> units[m].Star?
    {
      ui := ui + 1;
    }
    matched := ui == |units|;
  }

  // ----- the components of a path against the segments of a pattern -----

  predicate SegmentAccepts(s: Segment, component: string) {
    s.Pattern? && UnitsMatch(s.units, component)
  }

  /** The items from `i` on match the components from `j` on: `**` absorbs any run of them, every
      other item exactly one that it accepts. */
  predicate SegmentsMatchFrom(pattern: seq<Segment>, text: seq<string>, i: nat, j: nat)
    requires i <= |pattern| && j <= |text|
    decreases |pattern| - i, |text| - j
  {
    if i == |pattern| then j == |text|
    else if pattern[i].DoubleStar? then
      SegmentsMatchFrom(pattern, text, i + 1, j) || (j < |text| && SegmentsMatchFrom(pattern, text, i, j + 1))
    else
      j < |text| && SegmentAccepts(pattern[i], text[j]) && SegmentsMatchFrom(pattern, text, i + 1, j + 1)
  }

  /** Do the items from `next` on match some rest of the text that starts at `from` or later? */
  ghost predicate SegmentsMatchSomewhere(pattern: seq<Segment>, text: seq<string>, next: nat, from: nat)
    requires next <= |pattern|
  {
    exists k :: from <= k <= |text| && SegmentsMatchFrom(pattern, text, next, k)
  }

  /** The declarative reading of a star: it takes some number of components, any number. */
  lemma {:induction false} SegmentsStarTakesAnyRun(pattern: seq<Segment>, text: seq<string>, i: nat, j: nat)
    requires i < |pattern| && pattern[i].DoubleStar? && j <= |text|
    ensures SegmentsMatchFrom(pattern, text, i, j) <==> SegmentsMatchSomewhere(pattern, text, i + 1, j)
    decreases |text| - j
  {
    if j < |text| {
      SegmentsStarTakesAnyRun(pattern, text, i, j + 1);
      assert SegmentsMatchSomewhere(pattern, text, i + 1, j) <==>
        SegmentsMatchFrom(pattern, text, i + 1, j) || SegmentsMatchSomewhere(pattern, text, i + 1, j + 1);
    }
  }

  /** Items that are no stars consume one component each. */
  lemma {:induction false} SegmentsFixedWidth(pattern: seq<Segment>, text: seq<string>, i: nat, upto: nat, j: nat)
    requires i <= upto <= |pattern| && j <= |text|
    requires forall m :: i <= m < upto ==> !pattern[m].DoubleStar?
    requires SegmentsMatchFrom(pattern, text, i, j)
    ensures j + (upto - i) <= |text| && SegmentsMatchFrom(pattern, text, upto, j + (upto - i))
    ensures forall m :: i <= m < upto ==> SegmentAccepts(pattern[m], text[j + (m - i)])
    decreases upto - i
  {
    if i < upto {
      SegmentsFixedWidth(pattern, text, i + 1, upto, j + 1);
    }
  }

  /** Only stars match the empty rest. */
  lemma {:induction false} SegmentsEmptyRest(pattern: seq<Segment>, text: seq<string>, i: nat)
    requires i <= |pattern|
    ensures SegmentsMatchFrom(pattern, text, i, |text|) <==> forall m :: i <= m < |pattern| ==> pattern[m].DoubleStar?
    decreases |pattern| - i
  {
    if i < |pattern| {
      SegmentsEmptyRest(pattern, text, i + 1);
    }
  }

  /** Does the pattern after the saved star match some rest that starts after `from`? */
  ghost predicate SegmentsMatchLater(pattern: seq<Segment>, text: seq<string>, saved: Option<nat>, from: nat)
  {
    saved.Some? && saved.value < |pattern| && SegmentsMatchSomewhere(pattern, text, saved.value + 1, from + 1)
  }

  /** A new star makes every alternative of the older one redundant. */
  lemma SegmentsNewestStarSuffices(pattern: seq<Segment>, text: seq<string>, saved: Option<nat>, from: nat, i: nat,
                                   j: nat)
    requires i < |pattern| && pattern[i].DoubleStar? && from <= j <= |text|
    requires saved.Some? ==> saved.value < i && j - from == i - (saved.value + 1)
    requires saved.Some? ==> forall m :: saved.value < m < i ==> !pattern[m].DoubleStar?
    ensures SegmentsMatchFrom(pattern, text, i, j) || SegmentsMatchLater(pattern, text, saved, from) <==>
            SegmentsMatchFrom(pattern, text, i + 1, j) || SegmentsMatchLater(pattern, text, Some(i), j)
  {
    SegmentsStarTakesAnyRun(pattern, text, i, j);
    if SegmentsMatchLater(pattern, text, saved, from) {
      var next := saved.value + 1;
      var k :| from < k <= |text| && SegmentsMatchFrom(pattern, text, next, k);
      SegmentsFixedWidth(pattern, text, saved.value + 1, i, k);
      var landed := k + (i - (saved.value + 1));
      SegmentsStarTakesAnyRun(pattern, text, i, landed);
    }
  }

  /** When the text is used up, no alternative of the saved star is left. */
  lemma SegmentsNothingLater(pattern: seq<Segment>, text: seq<string>, saved: Option<nat>, from: nat, i: nat)
    requires i <= |pattern| && from <= |text|
    requires saved.Some? ==> saved.value < i && |text| - from == i - (saved.value + 1)
    requires saved.Some? ==> forall m :: saved.value < m < i ==> !pattern[m].DoubleStar?
    ensures !SegmentsMatchLater(pattern, text, saved, from)
  {
    if SegmentsMatchLater(pattern, text, saved, from) {
      var next := saved.value + 1;
      var k :| from < k <= |text| && SegmentsMatchFrom(pattern, text, next, k);
      SegmentsFixedWidth(pattern, text, saved.value + 1, i, k);
    }
  }

  predicate SegmentsMatch(pattern: seq<Segment>, components: seq<string>) {
    SegmentsMatchFrom(pattern, components, 0, 0)
  }

  method MatchSegments(pattern: seq<Segment>, text: seq<string>) returns (matched: bool)
    ensures matched == SegmentsMatch(pattern, text)
  {
    var pi: nat, ti: nat := 0, 0;
    var starPi: Option<nat> := None;
    var starTi: nat := 0;
    while ti < |text|
      invariant starTi <= ti <= |text| && pi <= |pattern|
      invariant starPi.Some? ==> starPi.value < pi && pattern[starPi.value].DoubleStar?
      invariant starPi.Some? ==> ti - starTi == pi - (starPi.value + 1)
      invariant starPi.Some? ==> forall m :: starPi.value < m < pi ==> !pattern[m].DoubleStar?
      invariant SegmentsMatch(pattern, text) <==>
                SegmentsMatchFrom(pattern, text, pi, ti) || SegmentsMatchLater(pattern, text, starPi, starTi)
      decreases |text| - starTi, if starPi.Some? then |pattern| - starPi.value else |pattern| + 1, |pattern| - pi
    {
      if pi < |pattern| {
        match pattern[pi]
        case DoubleStar =>
          SegmentsNewestStarSuffices(pattern, text, starPi, starTi, pi, ti);
          starPi, starTi, pi := Some(pi), ti, pi + 1;
          continue;
        case Pattern(units) =>
          var accepted := MatchUnits(units, text[ti]);
          if accepted {
            pi, ti := pi + 1, ti + 1;
            continue;
          }
      }
      match starPi
      case Some(spi) =>
        pi, starTi := spi + 1, starTi + 1;
        ti := starTi;
      case None => return false;
    }
    SegmentsNothingLater(pattern, text, starPi, starTi, pi);
    SegmentsEmptyRest(pattern, text, pi);
    ghost var rest := pi;
    while pi < |pattern| && pattern[pi].DoubleStar?
      invariant rest <= pi <= |pattern|
      invariant forall m :: rest <= m < pi ==> pattern[m].DoubleStar?
    {
      pi := pi + 1;
    }
    matched := pi == |pattern|;
  }

  predicate Matches(g: Glob, path: string) {
    SegmentsMatch(g.segments, Split(path))
  }

  method IsMatch(g: Glob, path: string) returns (matched: bool)
    ensures matched == Matches(g, path)
  {
    matched := MatchSegments(g.segments, Split(path));
  }

  // ----- compilation -----

  function ToUnit(c: char): Unit {
    if c == '*' then Star else if c == '?' then Question else Literal(c)
  }

  function ToUnits(component: string): (units: seq<Unit>)
  {
    seq(|component|, i requires 0 <= i < |component| => ToUnit(component[i]))
  }

  function ToSegment(component: string): Segment {
    if component == "**" then DoubleStar else Pattern(ToUnits(component))
  }

  /** The pure final step of compilation: split, then map each component. */
  function SegmentsOf(raw: string): (segments: seq<Segment>)
    ensures |segments| == |Split(raw)|
  {
    var parts := Split(raw);
    seq(|parts|, i requires 0 <= i < |parts| => ToSegment(parts[i]))
  }

  /** Brackets and braces anywhere, or a leading bang: syntax version 1 does not have. */
  predicate Unsupported(raw: string) {
    '[' in raw || ']' in raw || '{' in raw || '}' in raw || (raw != "" && raw[0] == '!')
  }

  predicate StarPair(s: string, i: int) {
    0 <= i && i + 1 < |s| && s[i] == '*' && s[i + 1] == '*'
  }

  /** Two adjacent stars that are not a whole component between separators or ends. */
  predicate BadPair(s: string, i: int) {
    StarPair(s, i) && !((i == 0 || s[i - 1] == '/') && (i + 2 == |s| || s[i + 2] == '/'))
  }

  /** A component of the declared grammar: the lone `**`, or no two stars side by side. */
  ghost predicate GoodComponent(component: string) {
    component == "**" || forall i :: !StarPair(component, i)
  }

  /** The declared grammar, component by component. */
  ghost predicate WellFormed(raw: string) {
    && raw != "" && !Unsupported(raw)
    && forall k :: 0 <= k < |Split(raw)| ==> GoodComponent(Split(raw)[k])
  }

  /** What the private fields of a compiled glob always satisfy. */
  ghost predicate Compiled(g: Glob) {
    WellFormed(g.raw) && g.segments == SegmentsOf(g.raw)
  }

  function FaultOf(raw: string, i: int): GlobError
    requires BadPair(raw, i)
  {
    if StarPair(raw, i + 1) then TooManyStars else MalformedDoubleStar
  }

  method Compile(raw: string) returns (r: Result<Glob, GlobError>)
    ensures r.Ok? <==> WellFormed(raw)
    ensures r.Ok? ==> r.value.raw == raw && Compiled(r.value)
    ensures r == Err(Empty) <==> raw == ""
    ensures r == Err(UnsupportedSyntax) <==> raw != "" && Unsupported(raw)
    ensures r.Err? && !r.error.Empty? && !r.error.UnsupportedSyntax? ==>
              exists i :: BadPair(raw, i) && (forall j :: j < i ==> !BadPair(raw, j)) && r.error == FaultOf(raw, i)
  {
    if raw == "" {
      return Err(Empty);
    }
    if Unsupported(raw) {
      return Err(UnsupportedSyntax);
    }
    PairsAndComponents(raw);
    var chars := raw;
    var i := 0;
    while i < |chars|
      invariant 0 <= i <= |chars|
      invariant !StarPair(chars, i - 1)
      invariant forall j :: j < i ==> !BadPair(chars, j)
    {
      if chars[i] != '*' {
        i := i + 1;
        continue;
      }
      var start := i;
      while i < |chars| && chars[i] == '*'
        invariant start <= i <= |chars|
        invariant forall j :: start <= j < i ==> chars[j] == '*'
      {
        i := i + 1;
      }
      var run := i - start;
      assert run >= 2 ==> StarPair(chars, start);
      if run > 2 {
        assert chars[start + 2] == '*';
        assert BadPair(chars, start) && StarPair(chars, start + 1);
        return Err(TooManyStars);
      }
      if run == 2 {
        var beforeOk := start == 0 || chars[start - 1] == '/';
        var afterOk := i == |chars| || chars[i] == '/';
        if !beforeOk || !afterOk {
          assert BadPair(chars, start) && !StarPair(chars, start + 1);
          return Err(MalformedDoubleStar);
        }
      }
    }
    r := Ok(Glob(raw, SegmentsOf(raw)));
  }

  /** Star pairs never reach across a separator, so the run check over the whole text is the
      grammar checked component by component. */
  lemma {:induction false} PairsAndComponents(s: string)
    ensures (forall i :: !BadPair(s, i)) <==> forall k :: 0 <= k < |Split(s)| ==> GoodComponent(Split(s)[k])
    decreases |s|
  {
    if '/' !in s {
      SplitNoSlash(s);
      assert Split(s)[0] == s;
      if StarPair(s, 0) && |s| == 2 {
        assert s == "**";
      }
      if i :| StarPair(s, i) && s != "**" {
        assert BadPair(s, i);
      }
      if s == "**" {
        assert forall i :: !BadPair(s, i);
      }
    } else {
      hide Split, GoodComponent, BadPair, StarPair;
      var at :| 0 <= at < |s| && s[at] == '/';
      var a, b := s[..at], s[at + 1..];
      assert s == a + "/" + b;
      SplitAppend(a, b);
      PairsAndComponents(a);
      PairsAndComponents(b);
      PairsSplit(a, b);
      GoodTogether(Split(a), Split(b));
    }
  }

  lemma GoodTogether(left: seq<string>, right: seq<string>)
    ensures (forall k :: 0 <= k < |left + right| ==> GoodComponent((left + right)[k])) <==>
            (forall k :: 0 <= k < |left| ==> GoodComponent(left[k]))
            && (forall k :: 0 <= k < |right| ==> GoodComponent(right[k]))
  {
    hide GoodComponent;
    forall k | 0 <= k < |left| ensures (left + right)[k] == left[k] {}
    forall k | 0 <= k < |right| ensures (left + right)[|left| + k] == right[k] {}
  }

  lemma PairsSplit(a: string, b: string)
    ensures (forall i :: !BadPair(a + "/" + b, i)) <==> (forall i :: !BadPair(a, i)) && (forall i :: !BadPair(b, i))
  {
    var s, n := a + "/" + b, |a| + 1;
    forall i | StarPair(a, i) ensures BadPair(a, i) <==> BadPair(s, i) {}
    forall i | StarPair(b, i) ensures BadPair(b, i) <==> BadPair(s, n + i) {
      assert s[n + i] == b[i] && s[n + i + 1] == b[i + 1];
    }
    forall i | StarPair(s, i) ensures StarPair(a, i) || StarPair(b, i - n) {
      assert i < |a| || i >= n;
    }
    if i :| BadPair(b, i) {
      assert BadPair(s, n + i);
    }
  }

  // ----- printing a compiled pattern back -----

  function PrintUnit(u: Unit): char {
    match u
    case Star => '*'
    case Question => '?'
    case Literal(c) => c
  }

  function PrintSegment(s: Segment): string {
    match s
    case DoubleStar => "**"
    case Pattern(units) => seq(|units|, i requires 0 <= i < |units| => PrintUnit(units[i]))
  }

  function Print(segments: seq<Segment>): string
    requires |segments| >= 1
  {
    Join(seq(|segments|, i requires 0 <= i < |segments| => PrintSegment(segments[i])))
  }

  /** Compilation loses nothing: the segments print back to the pattern text. */
  lemma PrintInvertsCompile(raw: string)
    ensures Print(SegmentsOf(raw)) == raw
  {
    var parts, segments := Split(raw), SegmentsOf(raw);
    forall k | 0 <= k < |parts| ensures PrintSegment(segments[k]) == parts[k] {}
    assert seq(|segments|, i requires 0 <= i < |segments| => PrintSegment(segments[i])) == parts;
    JoinSplit(raw);
  }

  /** In a compiled glob no normal segment holds two stars side by side, so `**` only ever
      stands for itself. */
  lemma NoAdjacentStars(g: Glob, k: nat, i: nat)
    requires Compiled(g)
    requires k < |g.segments| && g.segments[k].Pattern? && i + 1 < |g.segments[k].units|
    ensures !(g.segments[k].units[i].Star? && g.segments[k].units[i + 1].Star?)
  {
    assert GoodComponent(Split(g.raw)[k]) && !StarPair(Split(g.raw)[k], i);
  }

  /** A component with no metacharacter matches itself and nothing else. */
  lemma LiteralComponent(part: string, component: string)
    requires '*' !in part && '?' !in part
    ensures SegmentAccepts(ToSegment(part), component) <==> component == part
  {
    var units := ToUnits(part);
    if UnitsMatch(units, component) {
      UnitsFixedWidth(units, component, 0, |units|, 0);
      forall m | 0 <= m < |units| ensures component[m] == part[m] {
        assert UnitAccepts(units[m], component[0 + (m - 0)]);
      }
    }
    if component == part {
      LiteralMatchesItself(part, 0);
    }
  }

  lemma {:induction false} LiteralMatchesItself(part: string, i: nat)
    requires '*' !in part && '?' !in part && i <= |part|
    ensures UnitsMatchFrom(ToUnits(part), part, i, i)
    decreases |part| - i
  {
    if i < |part| {
      LiteralMatchesItself(part, i + 1);
    }
  }
}
