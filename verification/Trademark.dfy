/**
  The trademark pass over catalog texts: case-insensitive literals, word boundaries, protected names.
 */
module Trademark {
  import opened Bytes
  import opened Outcomes
  import opened Sorting
  import opened Enumeration

  /** `re.escape(literal)`, with or without the alphanumeric boundary around it. */
  datatype Pattern = Pattern(literal: string, bounded: bool)

  /**
    Case-insensitive matching: what it compares of a character, and which characters its `[0-9A-Za-z]` takes in. That
    is more than the ASCII ones: the dotless and the dotted i, the long s and the Kelvin sign fold to ASCII letters.
   */
  datatype CaseRules = CaseRules(fold: char -> char, alphanumeric: char -> bool)

  datatype Rule = Rule(pattern: Pattern, replacement: string)
  datatype Ruleset = Ruleset(replace: seq<Rule>, scan: seq<Pattern>, protected: seq<Pattern>)

  /** The pattern matches the text at `i`. */
  predicate MatchesAt(text: string, p: Pattern, cases: CaseRules, i: nat) {
    var end := i + |p.literal|;
    && end <= |text|
    && (forall k :: 0 <= k < |p.literal| ==> cases.fold(text[i + k]) == cases.fold(p.literal[k]))
    && (p.bounded ==> (i == 0 || !cases.alphanumeric(text[i - 1])) && (end == |text| || !cases.alphanumeric(text[end])))
  }

  /** What a match is, seen in the text around it: the same characters but for case, and no word going on around it. */
  lemma MatchInContext(a: string, m: string, b: string, p: Pattern, cases: CaseRules)
    requires |m| == |p.literal|
    ensures MatchesAt(a + m + b, p, cases, |a|) <==>
              && (forall k :: 0 <= k < |m| ==> cases.fold(m[k]) == cases.fold(p.literal[k]))
              && (p.bounded && a != "" ==> !cases.alphanumeric(a[|a| - 1]))
              && (p.bounded && b != "" ==> !cases.alphanumeric(b[0]))
  {
    var text := a + m + b;
    forall k | 0 <= k < |m| ensures text[|a| + k] == m[k] {}
  }

  lemma NoMatchBeyondTheEnd(text: string, p: Pattern, cases: CaseRules, i: nat)
    requires i + |p.literal| > |text|
    ensures !MatchesAt(text, p, cases, i)
  {
  }

  /** How far the search moves on after a match: an empty match still moves one character. */
  function Stride(p: Pattern): (r: nat)
    ensures r >= 1 && r >= |p.literal|
  {
    if p.literal == "" then 1 else |p.literal|
  }

  /** The starts of `pattern.finditer(text)` from `from` on: leftmost first, without overlaps. */
  function FindAll(text: string, p: Pattern, cases: CaseRules, from: nat): (r: seq<nat>)
    ensures forall i :: 0 <= i < |r| ==> from <= r[i] <= |text|
    decreases |text| + 1 - from
  {
    if from > |text| then []
    else if MatchesAt(text, p, cases, from) then [from] + FindAll(text, p, cases, from + Stride(p))
    else FindAll(text, p, cases, from + 1)
  }

  /** Places in order, far enough apart not to overlap, all inside the text. */
  ghost predicate Spaced(text: string, length: nat, from: nat, places: seq<nat>) {
    && (forall i :: 0 <= i < |places| ==> from <= places[i] && places[i] + length <= |text|)
    && forall i, j :: 0 <= i < j < |places| ==> places[i] + length <= places[j]
  }

  lemma SpacedCons(text: string, length: nat, from: nat, at: nat, rest: seq<nat>)
    requires from <= at && at + length <= |text| && Spaced(text, length, at + length, rest)
    ensures Spaced(text, length, from, [at] + rest)
  {
  }

  /** The found places are matches, in order, and do not overlap. */
  lemma {:induction false} FoundAreMatches(text: string, p: Pattern, cases: CaseRules, from: nat)
    ensures forall x :: x in FindAll(text, p, cases, from) ==> MatchesAt(text, p, cases, x)
    ensures Spaced(text, |p.literal|, from, FindAll(text, p, cases, from))
    decreases |text| + 1 - from
  {
    if from <= |text| {
      if MatchesAt(text, p, cases, from) {
        FoundAreMatches(text, p, cases, from + Stride(p));
        SpacedCons(text, |p.literal|, from, from, FindAll(text, p, cases, from + Stride(p)));
      } else {
        FoundAreMatches(text, p, cases, from + 1);
      }
    }
  }

  /** No match is missed: each one is found, or starts inside a found one. */
  lemma {:induction false} EveryMatchIsCovered(text: string, p: Pattern, cases: CaseRules, from: nat, i: nat)
    returns (f: nat)
    requires from <= i && MatchesAt(text, p, cases, i)
    ensures f in FindAll(text, p, cases, from) && (f == i || f < i < f + |p.literal|)
    decreases |text| + 1 - from
  {
    if !MatchesAt(text, p, cases, from) {
      f := EveryMatchIsCovered(text, p, cases, from + 1, i);
    } else if from + Stride(p) <= i {
      f := EveryMatchIsCovered(text, p, cases, from + Stride(p), i);
    } else {
      f := from;
    }
  }

  // ----- protected spans -----

  /** The span of `p` at `at` covers the range. */
  predicate Covers(p: Pattern, at: nat, start: nat, end: nat) {
    at <= start && end <= at + |p.literal|
  }

  /** `_is_protected`: a span of a protected name contains the whole range. */
  predicate IsProtected(text: string, rules: Ruleset, cases: CaseRules, start: nat, end: nat) {
    exists k :: 0 <= k < |rules.protected| &&
      CoveredBy(rules.protected[k], FindAll(text, rules.protected[k], cases, 0), start, end)
  }

  predicate CoveredBy(p: Pattern, found: seq<nat>, start: nat, end: nat) {
    exists i :: 0 <= i < |found| && Covers(p, found[i], start, end)
  }

  /** A range is protected exactly when some found occurrence of a protected name goes at least as far both ways. */
  lemma ProtectedExactly(text: string, rules: Ruleset, cases: CaseRules, start: nat, end: nat)
    ensures IsProtected(text, rules, cases, start, end) <==>
              exists p :: p in rules.protected && Shields(FindAll(text, p, cases, 0), |p.literal|, start, end)
  {
    forall p ensures CoveredBy(p, FindAll(text, p, cases, 0), start, end) <==>
                     Shields(FindAll(text, p, cases, 0), |p.literal|, start, end)
    {
      CoveredMeansShielded(p, FindAll(text, p, cases, 0), start, end);
    }
    if p :| p in rules.protected && Shields(FindAll(text, p, cases, 0), |p.literal|, start, end) {
      var k :| 0 <= k < |rules.protected| && rules.protected[k] == p;
      assert CoveredBy(rules.protected[k], FindAll(text, rules.protected[k], cases, 0), start, end);
    }
  }

  lemma CoveredMeansShielded(p: Pattern, found: seq<nat>, start: nat, end: nat)
    ensures CoveredBy(p, found, start, end) <==> Shields(found, |p.literal|, start, end)
  {
    if i :| 0 <= i < |found| && Covers(p, found[i], start, end) {
      assert found[i] in found;
    }
    if f :| f in found && f <= start && end <= f + |p.literal| {
      var i :| 0 <= i < |found| && found[i] == f;
      assert Covers(p, found[i], start, end);
    }
  }

  predicate Shields(found: seq<nat>, length: nat, start: nat, end: nat) {
    exists f :: f in found && f <= start && end <= f + length
  }

  /** Whether a match of `p` at a place is to be replaced. */
  function Unguarded(text: string, p: Pattern, rules: Ruleset, cases: CaseRules): nat -> bool {
    (at: nat) => !IsProtected(text, rules, cases, at, at + |p.literal|)
  }

  function Chosen(found: seq<nat>, keep: nat -> bool): (r: seq<nat>)
    ensures forall x :: x in r <==> x in found && keep(x)
  {
    if found == [] then []
    else
      var first := if keep(found[0]) then [found[0]] else [];
      first + Chosen(found[1..], keep)
  }

  /** The unprotected matches, in order. */
  function Hits(text: string, p: Pattern, rules: Ruleset, cases: CaseRules): seq<nat> {
    Chosen(FindAll(text, p, cases, 0), Unguarded(text, p, rules, cases))
  }

  lemma {:induction false} ChosenStaySpaced(text: string, length: nat, from: nat, found: seq<nat>, keep: nat -> bool)
    requires Spaced(text, length, from, found)
    ensures Spaced(text, length, from, Chosen(found, keep))
    decreases |found|
  {
    if found != [] {
      var at := found[0];
      assert Spaced(text, length, at + length, found[1..]);
      ChosenStaySpaced(text, length, at + length, found[1..], keep);
      SpacedCons(text, length, from, at, Chosen(found[1..], keep));
    }
  }

  lemma HitsAreSpaced(text: string, p: Pattern, rules: Ruleset, cases: CaseRules)
    ensures Spaced(text, |p.literal|, 0, Hits(text, p, rules, cases))
  {
    FoundAreMatches(text, p, cases, 0);
    ChosenStaySpaced(text, |p.literal|, 0, FindAll(text, p, cases, 0), Unguarded(text, p, rules, cases));
  }

  // ----- one pass of apply_trademark -----

  lemma SpacedTail(text: string, length: nat, from: nat, places: seq<nat>)
    requires places != [] && Spaced(text, length, from, places)
    ensures from <= places[0] && places[0] + length <= |text|
    ensures Spaced(text, length, places[0] + length, places[1..])
  {
  }

  /** The text from `from` on with `replacement` instead of the `length` characters at each place. */
  function Replaced(text: string, length: nat, places: seq<nat>, replacement: string, from: nat): string
    requires from <= |text| && Spaced(text, length, from, places)
    decreases |places|
  {
    if places == [] then text[from..]
    else
      SpacedTail(text, length, from, places);
      var rest := Replaced(text, length, places[1..], replacement, places[0] + length);
      text[from..places[0]] + (replacement + rest)
  }

  /** A text cut at matched places. */
  datatype Parts = Last(kept: string) | More(kept: string, matched: string, rest: Parts)

  /** The cut text, put together again. */
  function Whole(parts: Parts): string {
    match parts
    case Last(kept) => kept
    case More(kept, matched, rest) => kept + (matched + Whole(rest))
  }

  /** The cut text with `replacement` instead of every matched piece. */
  function Rewritten(parts: Parts, replacement: string): string {
    match parts
    case Last(kept) => kept
    case More(kept, _, rest) => kept + (replacement + Rewritten(rest, replacement))
  }

  function CutAt(text: string, length: nat, places: seq<nat>, from: nat): Parts
    requires from <= |text| && Spaced(text, length, from, places)
    decreases |places|
  {
    if places == [] then Last(text[from..])
    else
      SpacedTail(text, length, from, places);
      var next := places[0] + length;
      More(text[from..places[0]], text[places[0]..next], CutAt(text, length, places[1..], next))
  }

  /**
    A pass is a substitution: old and new text consist of the same kept parts in the same order, with the matched
    pieces between them in the old text and the replacement in the new one.
   */
  lemma {:induction false} PassKeepsOtherText(
      text: string, length: nat, places: seq<nat>, replacement: string, from: nat)
    requires from <= |text| && Spaced(text, length, from, places)
    ensures text[from..] == Whole(CutAt(text, length, places, from))
    ensures Replaced(text, length, places, replacement, from) ==
            Rewritten(CutAt(text, length, places, from), replacement)
    decreases |places|
  {
    if places != [] {
      SpacedTail(text, length, from, places);
      PassKeepsOtherText(text, length, places[1..], replacement, places[0] + length);
      CutInThree(text, from, places[0], places[0] + length);
    }
  }

  lemma CutInThree(text: string, from: nat, at: nat, next: nat)
    requires from <= at <= next <= |text|
    ensures text[from..] == text[from..at] + (text[at..next] + text[next..])
  {
  }

  lemma {:induction false} PassLength(text: string, length: nat, places: seq<nat>, replacement: string, from: nat)
    requires from <= |text| && Spaced(text, length, from, places)
    ensures |Replaced(text, length, places, replacement, from)|
         == |text| - from + |places| * (|replacement| - length)
    decreases |places|
  {
    if places != [] {
      PassLength(text, length, places[1..], replacement, places[0] + length);
      OneMoreTimes(|places|, |replacement| - length);
    }
  }

  lemma OneMoreTimes(n: nat, change: int)
    requires n > 0
    ensures n * change == (n - 1) * change + change
  {
  }

  /** One replace rule over one text. */
  function Pass(text: string, rule: Rule, rules: Ruleset, cases: CaseRules): string {
    HitsAreSpaced(text, rule.pattern, rules, cases);
    Replaced(text, |rule.pattern.literal|, Hits(text, rule.pattern, rules, cases), rule.replacement, 0)
  }

  function Passes(text: string, todo: seq<Rule>, rules: Ruleset, cases: CaseRules): string
    decreases |todo|
  {
    if todo == [] then text else Passes(Pass(text, todo[0], rules, cases), todo[1..], rules, cases)
  }

  /** What a pass still has to write when the search has the places `found` ahead of it. */
  function Rest(text: string, rule: Rule, found: seq<nat>, keep: nat -> bool, cursor: nat): string
    requires cursor <= |text| && Spaced(text, |rule.pattern.literal|, cursor, found)
    decreases |found|
  {
    if found == [] then text[cursor..]
    else
      SpacedTail(text, |rule.pattern.literal|, cursor, found);
      if keep(found[0]) then
        text[cursor..found[0]]
        + (rule.replacement + Rest(text, rule, found[1..], keep, found[0] + |rule.pattern.literal|))
      else
        Rest(text, rule, found[1..], keep, cursor)
  }

  /** Skipping the protected matches on the way is replacing at the others. */
  lemma {:induction false} RestReplacesChosen(
      text: string, rule: Rule, found: seq<nat>, keep: nat -> bool, cursor: nat)
    requires cursor <= |text| && Spaced(text, |rule.pattern.literal|, cursor, found)
    requires Spaced(text, |rule.pattern.literal|, cursor, Chosen(found, keep))
    ensures Rest(text, rule, found, keep, cursor)
         == Replaced(text, |rule.pattern.literal|, Chosen(found, keep), rule.replacement, cursor)
    decreases |found|
  {
    if found != [] {
      SpacedTail(text, |rule.pattern.literal|, cursor, found);
      ChosenHead(found, keep);
      ChosenStaySpaced(text, |rule.pattern.literal|, found[0] + |rule.pattern.literal|, found[1..], keep);
      if keep(found[0]) {
        RestReplacesChosen(text, rule, found[1..], keep, found[0] + |rule.pattern.literal|);
        RestAtHit(text, rule, found, keep, cursor);
      } else {
        RestReplacesChosen(text, rule, found[1..], keep, cursor);
        assert Chosen(found, keep) == Chosen(found[1..], keep);
      }
    }
  }

  lemma RestAtHit(text: string, rule: Rule, found: seq<nat>, keep: nat -> bool, cursor: nat)
    requires found != [] && keep(found[0]) && cursor <= |text|
    requires Spaced(text, |rule.pattern.literal|, cursor, found)
    requires Spaced(text, |rule.pattern.literal|, cursor, [found[0]] + Chosen(found[1..], keep))
    requires found[0] + |rule.pattern.literal| <= |text|
    requires Spaced(text, |rule.pattern.literal|, found[0] + |rule.pattern.literal|, found[1..])
    requires Spaced(text, |rule.pattern.literal|, found[0] + |rule.pattern.literal|, Chosen(found[1..], keep))
    requires Rest(text, rule, found[1..], keep, found[0] + |rule.pattern.literal|)
          == Replaced(text, |rule.pattern.literal|, Chosen(found[1..], keep), rule.replacement,
                      found[0] + |rule.pattern.literal|)
    ensures Rest(text, rule, found, keep, cursor)
         == Replaced(text, |rule.pattern.literal|, [found[0]] + Chosen(found[1..], keep), rule.replacement, cursor)
  {
    ReplacedCons(text, |rule.pattern.literal|, found[0], Chosen(found[1..], keep), rule.replacement, cursor);
  }

  lemma ChosenHead(found: seq<nat>, keep: nat -> bool)
    requires found != []
    ensures Chosen(found, keep)
         == if keep(found[0]) then [found[0]] + Chosen(found[1..], keep) else Chosen(found[1..], keep)
  {
  }

  lemma ReplacedCons(text: string, length: nat, at: nat, rest: seq<nat>, replacement: string, cursor: nat)
    requires cursor <= at && at + length <= |text| && Spaced(text, length, at + length, rest)
    requires Spaced(text, length, cursor, [at] + rest)
    ensures Replaced(text, length, [at] + rest, replacement, cursor)
         == text[cursor..at] + (replacement + Replaced(text, length, rest, replacement, at + length))
  {
  }

  /** One turn of the loop: the text before the match and the replacement are written, or nothing is. */
  lemma OneMorePlace(
      text: string, rule: Rule, ahead: seq<nat>, keep: nat -> bool, pieces: string, cursor: nat)
    requires ahead != [] && cursor <= |text| && Spaced(text, |rule.pattern.literal|, cursor, ahead)
    ensures cursor <= ahead[0] <= ahead[0] + |rule.pattern.literal| <= |text|
    ensures Spaced(text, |rule.pattern.literal|, cursor, ahead[1..])
    ensures Spaced(text, |rule.pattern.literal|, ahead[0] + |rule.pattern.literal|, ahead[1..])
    ensures pieces + Rest(text, rule, ahead, keep, cursor)
         == if keep(ahead[0]) then
              pieces + (text[cursor..ahead[0]] + rule.replacement)
              + Rest(text, rule, ahead[1..], keep, ahead[0] + |rule.pattern.literal|)
            else pieces + Rest(text, rule, ahead[1..], keep, cursor)
  {
    var at := ahead[0];
    if keep(at) {
      SpacedTail(text, |rule.pattern.literal|, cursor, ahead);
      var rest := Rest(text, rule, ahead[1..], keep, at + |rule.pattern.literal|);
      AppendAssociates(text[cursor..at], rule.replacement, rest);
      AppendAssociates(pieces, text[cursor..at] + rule.replacement, rest);
    }
  }

  method Substitute(text: string, rule: Rule, found: seq<nat>, keep: nat -> bool) returns (r: string)
    requires Spaced(text, |rule.pattern.literal|, 0, found)
    ensures r == Rest(text, rule, found, keep, 0)
  {
    var pieces := "";
    var cursor: nat := 0;
    ghost var whole, ahead := Rest(text, rule, found, keep, 0), found;
    assert "" + whole == whole && found[0..] == found;
    for i := 0 to |found|
      invariant ahead == found[i..] && cursor <= |text| && Spaced(text, |rule.pattern.literal|, cursor, ahead)
      invariant pieces + Rest(text, rule, ahead, keep, cursor) == whole
    {
      var at := found[i];
      TailOf(found, i);
      OneMorePlace(text, rule, ahead, keep, pieces, cursor);
      ahead := ahead[1..];
      if keep(at) {
        pieces := pieces + (text[cursor..at] + rule.replacement);
        cursor := at + |rule.pattern.literal|;
      }
    }
    assert ahead == [];
    r := pieces + text[cursor..];
  }

  method ApplyRule(text: string, rule: Rule, rules: Ruleset, cases: CaseRules) returns (r: string)
    ensures r == Pass(text, rule, rules, cases)
  {
    var found := FindAll(text, rule.pattern, cases, 0);
    FoundAreMatches(text, rule.pattern, cases, 0);
    HitsAreSpaced(text, rule.pattern, rules, cases);
    RestReplacesChosen(text, rule, found, Unguarded(text, rule.pattern, rules, cases), 0);
    r := Substitute(text, rule, found, Unguarded(text, rule.pattern, rules, cases));
  }

  /**
    What one pass does, exactly: the new text is the old one with the replacement instead of each hit and all other
    text kept in order, and its length is accounted for.
   */
  lemma PassIsExact(text: string, rule: Rule, rules: Ruleset, cases: CaseRules)
    ensures var p := rule.pattern;
            var hits := Hits(text, p, rules, cases);
            && Spaced(text, |p.literal|, 0, hits)
            && text == Whole(CutAt(text, |p.literal|, hits, 0))
            && Pass(text, rule, rules, cases) == Rewritten(CutAt(text, |p.literal|, hits, 0), rule.replacement)
            && |Pass(text, rule, rules, cases)| == |text| + |hits| * (|rule.replacement| - |p.literal|)
  {
    var p := rule.pattern;
    var hits := Hits(text, p, rules, cases);
    HitsAreSpaced(text, p, rules, cases);
    PassKeepsOtherText(text, |p.literal|, hits, rule.replacement, 0);
    PassLength(text, |p.literal|, hits, rule.replacement, 0);
    assert text[0..] == text;
  }

  /**
    The hits are unprotected matches; and every match of the pattern anywhere is a hit itself, protected, or overlaps
    a found match that starts before it.
   */
  lemma HitsAreExact(text: string, rule: Rule, rules: Ruleset, cases: CaseRules)
    ensures forall x :: x in Hits(text, rule.pattern, rules, cases) ==>
              MatchesAt(text, rule.pattern, cases, x) && Unguarded(text, rule.pattern, rules, cases)(x)
    ensures forall i: nat {:trigger MatchesAt(text, rule.pattern, cases, i)} ::
              MatchesAt(text, rule.pattern, cases, i) ==>
                || i in Hits(text, rule.pattern, rules, cases)
                || !Unguarded(text, rule.pattern, rules, cases)(i)
                || exists f :: f in FindAll(text, rule.pattern, cases, 0) && f < i < f + Stride(rule.pattern)
  {
    var p := rule.pattern;
    var hits := Hits(text, p, rules, cases);
    FoundAreMatches(text, p, cases, 0);
    forall i: nat {:trigger MatchesAt(text, p, cases, i)} | MatchesAt(text, p, cases, i)
      ensures i in hits || !Unguarded(text, p, rules, cases)(i)
              || exists f :: f in FindAll(text, p, cases, 0) && f < i < f + Stride(p)
    {
      var f := EveryMatchIsCovered(text, p, cases, 0, i);
    }
  }

  method ApplyTrademark(text: string, rules: Ruleset, cases: CaseRules) returns (r: string)
    ensures r == Passes(text, rules.replace, rules, cases)
  {
    r := text;
    for i := 0 to |rules.replace|
      invariant Passes(r, rules.replace[i..], rules, cases) == Passes(text, rules.replace, rules, cases)
    {
      assert rules.replace[i..][1..] == rules.replace[i + 1..];
      r := ApplyRule(r, rules.replace[i], rules, cases);
    }
  }

  // ----- find_trademark_leftovers -----

  /** The unprotected indicators the text still has, as they are spelled there. */
  function Leftovers(text: string, rules: Ruleset, cases: CaseRules): set<string> {
    set k, i | 0 <= k < |rules.scan| && 0 <= i < |Hits(text, rules.scan[k], rules, cases)| ::
      Spelled(text, Hits(text, rules.scan[k], rules, cases)[i], |rules.scan[k].literal|)
  }

  function Spelled(text: string, at: nat, length: nat): string {
    if at + length <= |text| then text[at..at + length] else ""
  }

  lemma HitIsLeftover(text: string, rules: Ruleset, cases: CaseRules, k: nat, i: nat)
    requires k < |rules.scan| && i < |Hits(text, rules.scan[k], rules, cases)|
    ensures Spelled(text, Hits(text, rules.scan[k], rules, cases)[i], |rules.scan[k].literal|)
         in Leftovers(text, rules, cases)
  {
  }

  /** The leftovers are what the text has at the unprotected found matches of the scanned patterns. */
  lemma LeftoversExactly(text: string, rules: Ruleset, cases: CaseRules, s: string)
    ensures s in Leftovers(text, rules, cases) <==>
              exists p :: p in rules.scan
                          && IsLeft(text, FindAll(text, p, cases, 0), |p.literal|, Unguarded(text, p, rules, cases), s)
  {
    if s in Leftovers(text, rules, cases) {
      var k, i :| 0 <= k < |rules.scan| && 0 <= i < |Hits(text, rules.scan[k], rules, cases)|
                  && s == Spelled(text, Hits(text, rules.scan[k], rules, cases)[i], |rules.scan[k].literal|);
      var p := rules.scan[k];
      FoundAreMatches(text, p, cases, 0);
      ChosenIsLeft(text, FindAll(text, p, cases, 0), |p.literal|, Unguarded(text, p, rules, cases), i);
      assert p in rules.scan;
    }
    if p :| p in rules.scan
            && IsLeft(text, FindAll(text, p, cases, 0), |p.literal|, Unguarded(text, p, rules, cases), s)
    {
      var k :| 0 <= k < |rules.scan| && rules.scan[k] == p;
      var i := LeftIsChosen(text, FindAll(text, p, cases, 0), |p.literal|, Unguarded(text, p, rules, cases), s);
      HitIsLeftover(text, rules, cases, k, i);
    }
  }

  /** Not guarded is a match whose range is not protected. */
  lemma UnguardedMeans(text: string, p: Pattern, rules: Ruleset, cases: CaseRules, at: nat)
    ensures Unguarded(text, p, rules, cases)(at) <==> !IsProtected(text, rules, cases, at, at + |p.literal|)
  {
  }

  /** Found, to be kept in the list, and spelled like that. */
  predicate IsLeft(text: string, found: seq<nat>, length: nat, keep: nat -> bool, s: string) {
    exists f :: f in found && keep(f) && f + length <= |text| && s == text[f..f + length]
  }

  lemma ChosenIsLeft(text: string, found: seq<nat>, length: nat, keep: nat -> bool, i: nat)
    requires i < |Chosen(found, keep)| && forall f :: f in found ==> f + length <= |text|
    ensures IsLeft(text, found, length, keep, Spelled(text, Chosen(found, keep)[i], length))
  {
    var f := Chosen(found, keep)[i];
    assert f in Chosen(found, keep);
  }

  lemma LeftIsChosen(text: string, found: seq<nat>, length: nat, keep: nat -> bool, s: string) returns (i: nat)
    requires IsLeft(text, found, length, keep, s)
    ensures i < |Chosen(found, keep)| && s == Spelled(text, Chosen(found, keep)[i], length)
  {
    var f :| f in found && keep(f) && f + length <= |text| && s == text[f..f + length];
    i := ChosenIndex(found, keep, f);
  }

  lemma ChosenIndex(found: seq<nat>, keep: nat -> bool, f: nat) returns (i: nat)
    requires f in found && keep(f)
    ensures i < |Chosen(found, keep)| && Chosen(found, keep)[i] == f
  {
    i :| 0 <= i < |Chosen(found, keep)| && Chosen(found, keep)[i] == f;
  }

  lemma NoLeftoversMeansNoHits(text: string, rules: Ruleset, cases: CaseRules, k: nat)
    requires Leftovers(text, rules, cases) == {} && k < |rules.scan|
    ensures Hits(text, rules.scan[k], rules, cases) == []
  {
    if Hits(text, rules.scan[k], rules, cases) != [] {
      HitIsLeftover(text, rules, cases, k, 0);
    }
  }

  /** Everything replaced is also looked for. */
  ghost predicate ReplacesOnlyWhatItScans(rules: Ruleset) {
    forall k :: 0 <= k < |rules.replace| ==> rules.replace[k].pattern in rules.scan
  }

  lemma {:induction false} CleanPassesChangeNothing(text: string, todo: seq<Rule>, rules: Ruleset, cases: CaseRules)
    requires forall k :: 0 <= k < |todo| ==> Hits(text, todo[k].pattern, rules, cases) == []
    ensures Passes(text, todo, rules, cases) == text
    decreases |todo|
  {
    if todo != [] {
      assert Hits(text, todo[0].pattern, rules, cases) == [];
      HitsAreSpaced(text, todo[0].pattern, rules, cases);
      assert Pass(text, todo[0], rules, cases) == text[0..] == text;
      CleanPassesChangeNothing(text, todo[1..], rules, cases);
    }
  }

  /** A text the scan accepts is a fixed point of the whole rewriting. */
  lemma AcceptedTextIsFixed(text: string, rules: Ruleset, cases: CaseRules)
    requires ReplacesOnlyWhatItScans(rules) && Leftovers(text, rules, cases) == {}
    ensures Passes(text, rules.replace, rules, cases) == text
  {
    forall k | 0 <= k < |rules.replace| ensures Hits(text, rules.replace[k].pattern, rules, cases) == [] {
      var s :| 0 <= s < |rules.scan| && rules.scan[s] == rules.replace[k].pattern;
      NoLeftoversMeansNoHits(text, rules, cases, s);
    }
    CleanPassesChangeNothing(text, rules.replace, rules, cases);
  }

  // ----- trademark_ruleset -----

  predicate LongerFirst(a: string, b: string) {
    |a| >= |b|
  }

  /** The literal forms of a token, longer ones first. */
  function LiteralsIn(forms: map<string, seq<string>>): string -> seq<string> {
    (token: string) => if token in forms then Sort(forms[token], LongerFirst) else []
  }

  function Bounded(literals: seq<string>): (r: seq<Pattern>)
    ensures |r| == |literals| && forall i :: 0 <= i < |r| ==> r[i] == Pattern(literals[i], true)
  {
    seq(|literals|, i requires 0 <= i < |literals| => Pattern(literals[i], true))
  }

  function ReplacedBy(literals: seq<string>, replacement: string): (r: seq<Rule>)
    ensures |r| == |literals| && forall i :: 0 <= i < |r| ==> r[i] == Rule(Pattern(literals[i], true), replacement)
  {
    seq(|literals|, i requires 0 <= i < |literals| => Rule(Pattern(literals[i], true), replacement))
  }

  /** The bounded patterns of some tokens, token by token. */
  function PatternsFor(tokens: seq<string>, literals: string -> seq<string>): seq<Pattern> {
    if tokens == [] then []
    else PatternsFor(tokens[..|tokens| - 1], literals) + Bounded(literals(tokens[|tokens| - 1]))
  }

  function RulesFor(tokens: seq<string>, literals: string -> seq<string>, replacements: map<string, string>): seq<Rule>
    requires forall i :: 0 <= i < |tokens| ==> tokens[i] in replacements
  {
    if tokens == [] then []
    else
      var last := tokens[|tokens| - 1];
      RulesFor(tokens[..|tokens| - 1], literals, replacements) + ReplacedBy(literals(last), replacements[last])
  }

  lemma BoundedAre(literals: seq<string>, p: Pattern)
    ensures p in Bounded(literals) <==> p.bounded && p.literal in literals
  {
  }

  lemma SomeOneAddsIt(
      init: seq<string>, last: string, tokens: seq<string>, literals: string -> seq<string>, literal: string)
    requires tokens == init + [last]
    ensures (exists i :: 0 <= i < |tokens| && literal in literals(tokens[i])) <==>
              (exists i :: 0 <= i < |init| && literal in literals(init[i])) || literal in literals(last)
  {
    if i :| 0 <= i < |init| && literal in literals(init[i]) {
      assert tokens[i] == init[i];
    }
    assert tokens[|init|] == last;
  }

  lemma {:induction false} PatternsAre(tokens: seq<string>, literals: string -> seq<string>, p: Pattern)
    ensures p in PatternsFor(tokens, literals) <==>
              p.bounded && exists i :: 0 <= i < |tokens| && p.literal in literals(tokens[i])
  {
    if tokens != [] {
      var init, last := tokens[..|tokens| - 1], tokens[|tokens| - 1];
      PatternsAre(init, literals, p);
      BoundedAre(literals(last), p);
      SomeOneAddsIt(init, last, tokens, literals, p.literal);
    }
  }

  lemma {:induction false} RulePatternsAre(
      tokens: seq<string>, literals: string -> seq<string>, replacements: map<string, string>)
    requires forall i :: 0 <= i < |tokens| ==> tokens[i] in replacements
    ensures |RulesFor(tokens, literals, replacements)| == |PatternsFor(tokens, literals)|
    ensures forall k :: 0 <= k < |PatternsFor(tokens, literals)| ==>
              RulesFor(tokens, literals, replacements)[k].pattern == PatternsFor(tokens, literals)[k]
  {
    if tokens != [] {
      RulePatternsAre(tokens[..|tokens| - 1], literals, replacements);
    }
  }

  /** `sorted(set(item_names) | set(keeplist), key=len, reverse=True)`: each name once, longer ones first. */
  ghost predicate IsProtection(protected: seq<Pattern>, names: set<string>) {
    && (forall k :: 0 <= k < |protected| ==> !protected[k].bounded)
    && (exists order :: Enumerates(order, names) && SortedBy(order, LongerFirst) && |order| == |protected|
          && forall k :: 0 <= k < |order| ==> protected[k].literal == order[k])
  }

  /** The tokens to replace are known to the scan, each with at least one form. */
  predicate TokensHaveForms(forms: map<string, seq<string>>, replacements: map<string, string>) {
    forall token :: token in replacements ==> token in forms && forms[token] != []
  }

  ghost predicate IsRuleset(
      r: Ruleset, forms: map<string, seq<string>>, keeplist: seq<string>, replacements: map<string, string>,
      itemNames: seq<string>)
  {
    SortedSetEnumerates(replacements.Keys, TextLe);
    MembersByIndex(SortedSet(replacements.Keys, TextLe), replacements.Keys);
    && r.replace == RulesFor(SortedSet(replacements.Keys, TextLe), LiteralsIn(forms), replacements)
    && r.scan == PatternsFor(SortedSet(forms.Keys, TextLe), LiteralsIn(forms))
    && IsProtection(r.protected, (set n | n in itemNames) + (set n | n in keeplist))
  }

  method TrademarkRuleset(
      forms: map<string, seq<string>>, keeplist: seq<string>, replacements: map<string, string>,
      itemNames: seq<string>)
    returns (r: Option<Ruleset>)
    ensures r.Some? <==> TokensHaveForms(forms, replacements)
    ensures r.Some? ==> IsRuleset(r.value, forms, keeplist, replacements, itemNames)
  {
    var tokens := SortedTokens(replacements.Keys);
    MembersByIndex(tokens, replacements.Keys);
    var ok, replace := CollectRules(tokens, forms, LiteralsIn(forms), replacements);
    if !ok {
      return None;
    }
    var scanned := SortedTokens(forms.Keys);
    var protected := Protection((set n | n in itemNames) + (set n | n in keeplist));
    r := Some(Ruleset(replace, PatternsFor(scanned, LiteralsIn(forms)), protected));
  }

  method CollectRules(
      tokens: seq<string>, forms: map<string, seq<string>>, literals: string -> seq<string>,
      replacements: map<string, string>)
    returns (ok: bool, replace: seq<Rule>)
    requires Enumerates(tokens, replacements.Keys) && forall i :: 0 <= i < |tokens| ==> tokens[i] in replacements
    ensures ok <==> TokensHaveForms(forms, replacements)
    ensures ok ==> replace == RulesFor(tokens, literals, replacements)
  {
    replace := [];
    for i := 0 to |tokens|
      invariant forall k :: 0 <= k < i ==> tokens[k] in forms && forms[tokens[k]] != []
      invariant replace == RulesFor(tokens[..i], literals, replacements)
    {
      if tokens[i] !in forms || forms[tokens[i]] == [] {
        return false, [];
      }
      assert tokens[..i + 1][..i] == tokens[..i];
      replace := replace + ReplacedBy(literals(tokens[i]), replacements[tokens[i]]);
    }
    assert tokens[..|tokens|] == tokens;
    MembersByIndex(tokens, replacements.Keys);
    ok := true;
  }

  method SortedTokens(keys: set<string>) returns (tokens: seq<string>)
    ensures tokens == SortedSet(keys, TextLe) && Enumerates(tokens, keys)
  {
    var listing := ListAny(keys);
    TextLeIsTotalOrder();
    SortedListing(listing, keys, TextLe);
    SortedSetEnumerates(keys, TextLe);
    tokens := Sort(listing, TextLe);
  }

  method Protection(names: set<string>) returns (protected: seq<Pattern>)
    ensures IsProtection(protected, names)
  {
    var listing := ListAny(names);
    var order := Sort(listing, LongerFirst);
    SortSorts(listing, LongerFirst);
    PermutationEnumerates(listing, order, names);
    protected := seq(|order|, k requires 0 <= k < |order| => Pattern(order[k], false));
  }

  // ----- the ruleset in plain terms -----

  /** The rule is for one of the token's literal forms. */
  predicate IsRuleFor(
      rule: Rule, token: string, forms: map<string, seq<string>>, replacements: map<string, string>)
  {
    && token in replacements && token in forms
    && rule.pattern.bounded && rule.pattern.literal in forms[token] && rule.replacement == replacements[token]
  }

  /** The rules of one token after those of another, longer forms first within a token. */
  ghost predicate InRuleOrder(
      first: Rule, second: Rule, tokens: seq<string>, forms: map<string, seq<string>>,
      replacements: map<string, string>)
  {
    exists i, j :: 0 <= i <= j < |tokens|
                   && IsRuleFor(first, tokens[i], forms, replacements)
                   && IsRuleFor(second, tokens[j], forms, replacements)
                   && (i == j ==> |first.pattern.literal| >= |second.pattern.literal|)
  }

  /** Each rule is for one of the tokens, in their order. */
  ghost predicate AreInOrder(
      rules: seq<Rule>, tokens: seq<string>, forms: map<string, seq<string>>, replacements: map<string, string>)
  {
    && (forall k :: 0 <= k < |rules| ==> IsRuleForOne(rules[k], tokens, forms, replacements))
    && forall k, m :: 0 <= k < m < |rules| ==> InRuleOrder(rules[k], rules[m], tokens, forms, replacements)
  }

  predicate IsRuleForOne(
      rule: Rule, tokens: seq<string>, forms: map<string, seq<string>>, replacements: map<string, string>)
  {
    exists i :: 0 <= i < |tokens| && IsRuleFor(rule, tokens[i], forms, replacements)
  }

  lemma LongerFirstIsPreorder()
    ensures TotalPreorder(LongerFirst)
  {
  }

  lemma LiteralsDescend(forms: map<string, seq<string>>, token: string)
    requires token in forms
    ensures var literals := LiteralsIn(forms)(token);
            && (forall x :: x in literals <==> x in forms[token])
            && forall k, m :: 0 <= k < m < |literals| ==> |literals[k]| >= |literals[m]|
  {
    LongerFirstIsPreorder();
    SortSorts(forms[token], LongerFirst);
    forall x ensures x in Sort(forms[token], LongerFirst) <==> x in forms[token] {
      assert x in multiset(Sort(forms[token], LongerFirst)) <==> x in multiset(forms[token]);
    }
    var literals := Sort(forms[token], LongerFirst);
    forall k, m | 0 <= k < m < |literals| ensures |literals[k]| >= |literals[m]| {
      assert LongerFirst(literals[k], literals[m]);
    }
  }

  lemma {:induction false} RulesAreInOrder(
      tokens: seq<string>, forms: map<string, seq<string>>, replacements: map<string, string>)
    requires forall i :: 0 <= i < |tokens| ==> tokens[i] in replacements && tokens[i] in forms
    ensures AreInOrder(RulesFor(tokens, LiteralsIn(forms), replacements), tokens, forms, replacements)
  {
    if tokens != [] {
      var init, last := tokens[..|tokens| - 1], tokens[|tokens| - 1];
      RulesAreInOrder(init, forms, replacements);
      LiteralsDescend(forms, last);
      var before, literals := RulesFor(init, LiteralsIn(forms), replacements), LiteralsIn(forms)(last);
      OneMoreToken(before, init, last, literals, forms, replacements);
      RulesForNext(tokens, init, last, LiteralsIn(forms), replacements);
    }
  }

  lemma RulesForNext(
      tokens: seq<string>, init: seq<string>, last: string, literals: string -> seq<string>,
      replacements: map<string, string>)
    requires tokens != [] && init == tokens[..|tokens| - 1] && last == tokens[|tokens| - 1]
    requires forall i :: 0 <= i < |tokens| ==> tokens[i] in replacements
    ensures init + [last] == tokens
    ensures RulesFor(tokens, literals, replacements) ==
            RulesFor(init, literals, replacements) + ReplacedBy(literals(last), replacements[last])
  {
  }

  lemma OneMoreToken(
      before: seq<Rule>, init: seq<string>, last: string, literals: seq<string>,
      forms: map<string, seq<string>>, replacements: map<string, string>)
    requires last in replacements && last in forms
    requires forall x :: x in literals ==> x in forms[last]
    requires forall k, m :: 0 <= k < m < |literals| ==> |literals[k]| >= |literals[m]|
    requires AreInOrder(before, init, forms, replacements)
    ensures AreInOrder(before + ReplacedBy(literals, replacements[last]), init + [last], forms, replacements)
  {
    var rules, tokens := before + ReplacedBy(literals, replacements[last]), init + [last];
    forall k | 0 <= k < |rules|
      ensures IsRuleForOne(rules[k], tokens, forms, replacements)
      ensures k >= |before| ==> IsRuleFor(rules[k], tokens[|init|], forms, replacements)
    {
      if k < |before| {
        assert IsRuleForOne(before[k], init, forms, replacements);
        var i :| 0 <= i < |init| && IsRuleFor(before[k], init[i], forms, replacements);
        assert tokens[i] == init[i];
      } else {
        assert literals[k - |before|] in literals;
        assert IsRuleFor(rules[k], tokens[|init|], forms, replacements);
      }
    }
    forall k, m | 0 <= k < m < |rules| ensures InRuleOrder(rules[k], rules[m], tokens, forms, replacements) {
      if m < |before| {
        assert InRuleOrder(before[k], before[m], init, forms, replacements);
        var i, j :| 0 <= i <= j < |init|
                    && IsRuleFor(before[k], init[i], forms, replacements)
                    && IsRuleFor(before[m], init[j], forms, replacements)
                    && (i == j ==> |before[k].pattern.literal| >= |before[m].pattern.literal|);
        assert tokens[i] == init[i] && tokens[j] == init[j];
      } else if k < |before| {
        assert IsRuleForOne(before[k], init, forms, replacements);
        var i :| 0 <= i < |init| && IsRuleFor(before[k], init[i], forms, replacements);
        assert tokens[i] == init[i] && IsRuleFor(rules[m], tokens[|init|], forms, replacements);
      } else {
        assert IsRuleFor(rules[k], tokens[|init|], forms, replacements);
        assert IsRuleFor(rules[m], tokens[|init|], forms, replacements);
      }
    }
  }

  /**
    The ruleset, in plain terms. The replacement rules go through the tokens in order of their text, the longer forms
    of each first; every form of every token is scanned for, by bounded patterns; and the protected names are those of
    the items and of the keep list, unbounded, longer ones first.
   */
  lemma RulesetMeans(
      r: Ruleset, forms: map<string, seq<string>>, keeplist: seq<string>, replacements: map<string, string>,
      itemNames: seq<string>)
    requires IsRuleset(r, forms, keeplist, replacements, itemNames) && TokensHaveForms(forms, replacements)
    ensures exists tokens :: Ascend(tokens) && AreInOrder(r.replace, tokens, forms, replacements)
    ensures forall p :: p in r.scan <==> p.bounded && IsForm(forms, p.literal)
    ensures forall p :: p in r.protected <==> !p.bounded && (p.literal in itemNames || p.literal in keeplist)
    ensures forall k, m :: 0 <= k < m < |r.protected| ==> |r.protected[k].literal| >= |r.protected[m].literal|
  {
    var scanned := SortedSet(forms.Keys, TextLe);
    ReplaceMeans(r, forms, keeplist, replacements, itemNames);
    SortedSetEnumerates(forms.Keys, TextLe);
    forall p: Pattern ensures p in r.scan <==> p.bounded && IsForm(forms, p.literal) {
      ScannedMeans(forms, scanned, p);
    }
    ProtectionMeans(r.protected, (set n | n in itemNames) + (set n | n in keeplist));
  }

  ghost predicate Ascend(tokens: seq<string>) {
    forall i, j :: 0 <= i < j < |tokens| ==> TextLe(tokens[i], tokens[j]) && tokens[i] != tokens[j]
  }

  predicate IsForm(forms: map<string, seq<string>>, literal: string) {
    exists token :: token in forms && literal in forms[token]
  }

  lemma ScannedMeans(forms: map<string, seq<string>>, scanned: seq<string>, p: Pattern)
    requires Enumerates(scanned, forms.Keys)
    ensures p in PatternsFor(scanned, LiteralsIn(forms)) <==> p.bounded && IsForm(forms, p.literal)
  {
    MembersByIndex(scanned, forms.Keys);
    PatternsAre(scanned, LiteralsIn(forms), p);
    forall i | 0 <= i < |scanned|
      ensures p.literal in LiteralsIn(forms)(scanned[i]) <==> p.literal in forms[scanned[i]]
    {
      LiteralsDescend(forms, scanned[i]);
    }
    if IsForm(forms, p.literal) {
      var token :| token in forms && p.literal in forms[token];
      var i :| 0 <= i < |scanned| && scanned[i] == token;
    }
  }

  lemma ReplaceMeans(
      r: Ruleset, forms: map<string, seq<string>>, keeplist: seq<string>, replacements: map<string, string>,
      itemNames: seq<string>)
    requires IsRuleset(r, forms, keeplist, replacements, itemNames) && TokensHaveForms(forms, replacements)
    ensures exists tokens :: Ascend(tokens) && AreInOrder(r.replace, tokens, forms, replacements)
  {
    var tokens := SortedSet(replacements.Keys, TextLe);
    SortedTokensAscend(replacements.Keys);
    RulesAreInOrder(tokens, forms, replacements);
  }

  lemma SortedTokensAscend(keys: set<string>)
    ensures var tokens := SortedSet(keys, TextLe);
            (forall i :: 0 <= i < |tokens| ==> tokens[i] in keys) && Ascend(tokens)
  {
    TextLeIsTotalOrder();
    SortedSetEnumerates(keys, TextLe);
    MembersByIndex(SortedSet(keys, TextLe), keys);
    SortSorts(SomeOrder(keys), TextLe);
  }

  lemma ProtectionMeans(protected: seq<Pattern>, names: set<string>)
    requires IsProtection(protected, names)
    ensures forall p :: p in protected <==> !p.bounded && p.literal in names
    ensures forall k, m :: 0 <= k < m < |protected| ==> |protected[k].literal| >= |protected[m].literal|
  {
    var order :| Enumerates(order, names) && SortedBy(order, LongerFirst) && |order| == |protected|
                 && forall k :: 0 <= k < |order| ==> protected[k].literal == order[k];
    MembersByIndex(order, names);
    forall p: Pattern | !p.bounded && p.literal in names ensures p in protected {
      var k :| 0 <= k < |order| && order[k] == p.literal;
      assert protected[k] == p;
    }
    forall k, m | 0 <= k < m < |protected| ensures |protected[k].literal| >= |protected[m].literal| {
      assert LongerFirst(order[k], order[m]);
    }
  }

  /** Every ruleset the lock can give replaces only what it scans for. */
  lemma RulesetReplacesOnlyWhatItScans(
      r: Ruleset, forms: map<string, seq<string>>, keeplist: seq<string>, replacements: map<string, string>,
      itemNames: seq<string>)
    requires IsRuleset(r, forms, keeplist, replacements, itemNames)
    ensures ReplacesOnlyWhatItScans(r)
  {
    var tokens, scanned := SortedSet(replacements.Keys, TextLe), SortedSet(forms.Keys, TextLe);
    SortedSetEnumerates(replacements.Keys, TextLe);
    SortedSetEnumerates(forms.Keys, TextLe);
    MembersByIndex(tokens, replacements.Keys);
    RulePatternsAre(tokens, LiteralsIn(forms), replacements);
    forall k | 0 <= k < |r.replace| ensures r.replace[k].pattern in r.scan {
      assert r.replace[k].pattern == PatternsFor(tokens, LiteralsIn(forms))[k];
      FormsAreScanned(tokens, scanned, forms, LiteralsIn(forms), r.replace[k].pattern);
    }
  }

  lemma FormsAreScanned(
      tokens: seq<string>, scanned: seq<string>, forms: map<string, seq<string>>, literals: string -> seq<string>,
      p: Pattern)
    requires p in PatternsFor(tokens, literals) && Enumerates(scanned, forms.Keys)
    requires forall token :: token !in forms ==> literals(token) == []
    ensures p in PatternsFor(scanned, literals)
  {
    PatternsAre(tokens, literals, p);
    var i :| 0 <= i < |tokens| && p.literal in literals(tokens[i]);
    MembersByIndex(scanned, forms.Keys);
    var j :| 0 <= j < |scanned| && scanned[j] == tokens[i];
    PatternsAre(scanned, literals, p);
  }
}
