/**
 The line annotator: matches claim spans of the line in rule order, an overlapping match loses, and
 the line is rendered left to right with the claimed spans turned into links.
 */
module Scrape {
  /** One match of a rule (its group, when it has one), as byte positions in the line. */
  datatype Span = Span(start: nat, end: nat, ptype: string)

  /** A rule with all its matches on the line at hand. */
  datatype Rule = Rule(ptype: string, matches: seq<(nat, nat)>)

  /** A link wraps text in an object of its type whose value is that text. */
  datatype Piece = Plain(text: string) | Link(ptype: string, text: string)

  predicate SlugChar(c: char) {
    'a' <= c <= 'z' || 'A' <= c <= 'Z' || '0' <= c <= '9' || c == '.' || c == '_' || c == '-'
  }

  predicate ValidPtype(s: string) { s != "" && forall i | 0 <= i < |s| :: SlugChar(s[i]) }

  /** An ASCII letter or digit, a dash, a dot or an underscore, by its code. */
  predicate SlugCode(n: int) { n == 45 || n == 46 || n == 95 || 48 <= n <= 57 || 65 <= n <= 90 || 97 <= n <= 122 }

  lemma {:induction false} SlugCharCode(c: char)
    ensures SlugChar(c) <==> SlugCode(c as int)
  {
  }

  /** Type names are made of those, and of at least one. */
  lemma {:induction false} LegalTypeNames(s: string)
    ensures ValidPtype(s) <==> |s| > 0 && forall i | 0 <= i < |s| :: SlugCode(s[i] as int)
  {
    hide SlugChar, SlugCode;
    forall i | 0 <= i < |s| ensures SlugChar(s[i]) <==> SlugCode(s[i] as int) { SlugCharCode(s[i]); }
  }

  /** The text left when the links are erased. */
  function Visible(out: seq<Piece>): string {
    if out == [] then "" else Visible(out[..|out| - 1]) + out[|out| - 1].text
  }

  // ----- which matches win --------------------------------------------------

  function SpansOf(r: Rule): seq<Span> {
    seq(|r.matches|, i requires 0 <= i < |r.matches| => Span(r.matches[i].0, r.matches[i].1, r.ptype))
  }

  /** All matches in priority order. */
  function Flatten(rules: seq<Rule>): seq<Span> {
    if rules == [] then [] else Flatten(rules[..|rules| - 1]) + SpansOf(rules[|rules| - 1])
  }

  /** The two cover a common position. */
  predicate Overlap(s: Span, t: Span) { s.start < s.end && t.start < t.end && s.start < t.end && t.start < s.end }

  predicate Covers(s: Span, k: nat) { s.start <= k < s.end }

  lemma {:induction false} OverlapIsShared(s: Span, t: Span)
    ensures Overlap(s, t) <==> exists k: nat :: Covers(s, k) && Covers(t, k)
  {
    if Overlap(s, t) {
      var k := if s.start < t.start then t.start else s.start;
      assert Covers(s, k) && Covers(t, k);
    }
  }

  predicate Clashes(spans: seq<Span>, m: Span) { exists s | s in spans :: Overlap(s, m) }

  /** Matches accepted in order, each unless it overlaps one accepted before it. */
  function Accepted(ms: seq<Span>): seq<Span> {
    if ms == [] then []
    else
      var before, m := Accepted(ms[..|ms| - 1]), ms[|ms| - 1];
      if Clashes(before, m) then before else before + [m]
  }

  predicate InBounds(ms: seq<Span>, n: nat) { forall m | m in ms :: m.start <= m.end <= n }

  ghost predicate Disjoint(spans: seq<Span>) {
    forall i, j | 0 <= i < j < |spans| :: !Overlap(spans[i], spans[j])
  }

  /** Accepted matches are disjoint, and a match left out overlaps one that was accepted before it. */
  lemma {:induction false} AcceptedIsMaximal(ms: seq<Span>)
    ensures Disjoint(Accepted(ms))
    ensures forall s | s in Accepted(ms) :: s in ms
    ensures forall k | 0 <= k < |ms| :: ms[k] in Accepted(ms) || Clashes(Accepted(ms[..k]), ms[k])
  {
    if ms != [] {
      var rest, m := ms[..|ms| - 1], ms[|ms| - 1];
      AcceptedIsMaximal(rest);
      forall k | 0 <= k < |ms|
        ensures ms[k] in Accepted(ms) || Clashes(Accepted(ms[..k]), ms[k])
      {
        if k < |rest| { assert rest[k] == ms[k] && rest[..k] == ms[..k]; }
      }
    }
  }

  lemma {:induction false} AcceptedGrows(ms: seq<Span>, m: Span)
    ensures Accepted(ms + [m]) == if Clashes(Accepted(ms), m) then Accepted(ms) else Accepted(ms) + [m]
  {
    assert (ms + [m])[..|ms|] == ms;
  }

  /** Match k of rule r. */
  function MatchOf(rules: seq<Rule>, r: nat, k: nat): Span
    requires r < |rules| && k < |rules[r].matches|
  {
    Span(rules[r].matches[k].0, rules[r].matches[k].1, rules[r].ptype)
  }

  lemma {:induction false} FlattenSplits(rules: seq<Rule>, r: nat)
    requires r < |rules|
    ensures Flatten(rules[..r + 1]) == Flatten(rules[..r]) + SpansOf(rules[r])
    ensures Flatten(rules[..r + 1]) <= Flatten(rules)
    decreases |rules|
  {
    assert rules[..r + 1][..r] == rules[..r];
    if r + 1 < |rules| {
      FlattenSplits(rules[..|rules| - 1], r);
      assert rules[..|rules| - 1][..r + 1] == rules[..r + 1];
    } else {
      assert rules[..r + 1] == rules;
    }
  }

  /** Which match stands at a place before the r-th rule's k-th: one of an earlier rule, or an earlier one of that rule. */
  lemma {:induction false} StandsBefore(rules: seq<Rule>, r: nat, k: nat, q: nat) returns (r': nat, k': nat)
    requires r < |rules| && k <= |rules[r].matches| && q < |Flatten(rules[..r])| + k
    ensures r' < |rules| && k' < |rules[r'].matches| && (r' < r || (r' == r && k' < k))
    ensures q < |Flatten(rules)| && Flatten(rules)[q] == MatchOf(rules, r', k')
  {
    hide Flatten;
    FlattenSplits(rules, r);
    var before := |Flatten(rules[..r])|;
    if q >= before {
      r', k' := r, q - before;
    } else {
      if r == 0 { NoRules(rules); }
      FlattenSplits(rules, r - 1);
      r', k' := StandsBefore(rules, r - 1, |rules[r - 1].matches|, q);
    }
  }

  lemma {:induction false} NoRules(rules: seq<Rule>)
    ensures Flatten(rules[..0]) == []
  {
  }

  lemma {:induction false} AcceptedStay(ms: seq<Span>, p: nat)
    requires p <= |ms|
    ensures Accepted(ms[..p]) <= Accepted(ms)
  {
    if p < |ms| {
      AcceptedStay(ms[..|ms| - 1], p);
      assert ms[..|ms| - 1][..p] == ms[..p];
    } else {
      assert ms[..p] == ms;
    }
  }

  /**
   Earlier rules win: a match that is left out overlaps an accepted one of an earlier rule, or an earlier one of
   its own rule.
   */
  lemma {:induction false} EarlierRulesWin(rules: seq<Rule>, r: nat, k: nat) returns (r': nat, k': nat)
    requires r < |rules| && k < |rules[r].matches|
    ensures MatchOf(rules, r, k) !in Accepted(Flatten(rules)) ==>
      && r' < |rules| && k' < |rules[r'].matches| && (r' < r || (r' == r && k' < k))
      && MatchOf(rules, r', k') in Accepted(Flatten(rules))
      && Overlap(MatchOf(rules, r', k'), MatchOf(rules, r, k))
  {
    hide Flatten, Accepted, Overlap;
    r', k' := 0, 0;
    FlattenSplits(rules, r);
    var ms, p := Flatten(rules), |Flatten(rules[..r])| + k;
    assert ms[p] == Flatten(rules[..r + 1])[p] == MatchOf(rules, r, k);
    AcceptedIsMaximal(ms);
    if ms[p] !in Accepted(ms) {
      var s :| s in Accepted(ms[..p]) && Overlap(s, ms[p]);
      AcceptedIsMaximal(ms[..p]);
      AcceptedStay(ms, p);
      var q :| 0 <= q < p && ms[q] == s;
      r', k' := StandsBefore(rules, r, k, q);
    }
  }

  // ----- the ordering loop --------------------------------------------------

  /** The first span that starts at i, if any. */
  function FirstAt(spans: seq<Span>, i: nat): (k: nat)
    ensures k <= |spans|
    ensures k < |spans| ==> spans[k].start == i
    ensures forall j | 0 <= j < k :: spans[j].start != i
  {
    if spans == [] || spans[0].start == i then 0 else 1 + FirstAt(spans[1..], i)
  }

  function Advance(spans: seq<Span>, i: nat): nat {
    if FirstAt(spans, i) < |spans| then spans[FirstAt(spans, i)].end else i + 1
  }

  /** Where the loop is after k turns on a line of n bytes. */
  function After(spans: seq<Span>, n: nat, k: nat): nat {
    if k == 0 then 0
    else if After(spans, n, k - 1) >= n then After(spans, n, k - 1) else Advance(spans, After(spans, n, k - 1))
  }

  /** Position i lies inside a span, not at its start. */
  predicate Inside(spans: seq<Span>, i: nat) { exists s | s in spans :: s.start < i < s.end }

  /** An empty span that comes first at its position, before the end of the line and inside no other span. */
  predicate StuckAt(spans: seq<Span>, n: nat, i: nat) {
    i < n && !Inside(spans, i) && FirstAt(spans, i) < |spans| && spans[FirstAt(spans, i)].end == i
  }

  predicate Stuck(spans: seq<Span>, n: nat) { exists i | 0 <= i < n :: StuckAt(spans, n, i) }

  /** At a position the loop can reach, it moves on, over a whole span or one byte, unless it is stuck there. */
  lemma {:induction false} Advances(spans: seq<Span>, n: nat, i: nat)
    requires Disjoint(spans) && InBounds(spans, n) && i < n && !Inside(spans, i) && !StuckAt(spans, n, i)
    ensures i < Advance(spans, i) <= n && !Inside(spans, Advance(spans, i))
  {
    var k, j := FirstAt(spans, i), Advance(spans, i);
    forall s | s in spans
      ensures !(s.start < j < s.end)
    {
      var h :| 0 <= h < |spans| && spans[h] == s;
      if k < |spans| { NoneAcross(spans, h, k); }
    }
  }

  lemma {:induction false} NoneAcross(spans: seq<Span>, h: nat, k: nat)
    requires Disjoint(spans) && h < |spans| && k < |spans| && spans[k].start < spans[k].end
    ensures h == k || spans[h].end <= spans[k].start || spans[k].end <= spans[h].start || spans[h].start >= spans[h].end
  {
    assert h < k ==> !Overlap(spans[h], spans[k]);
    assert k < h ==> !Overlap(spans[k], spans[h]);
  }

  /** Before a stuck position the loop never gets past it. */
  lemma {:induction false} NeverPast(spans: seq<Span>, n: nat, i: nat, k: nat)
    requires InBounds(spans, n) && StuckAt(spans, n, i)
    ensures After(spans, n, k) <= i
  {
    if k > 0 { NeverPast(spans, n, i, k - 1); }
  }

  lemma {:induction false} KeepsMoving(spans: seq<Span>, n: nat, k: nat)
    requires Disjoint(spans) && InBounds(spans, n) && !Stuck(spans, n)
    ensures After(spans, n, k) >= (if k <= n then k else n) && After(spans, n, k) <= n && !Inside(spans, After(spans, n, k))
  {
    if k > 0 {
      KeepsMoving(spans, n, k - 1);
      var i := After(spans, n, k - 1);
      if i < n {
        assert !StuckAt(spans, n, i);
        Advances(spans, n, i);
      }
    } else {
      assert !Inside(spans, 0);
    }
  }

  /**
   The ordering loop ends exactly if no accepted match is empty, first at its place before the end of
   the line, and inside no other: in particular whenever every match is non-empty.
   */
  lemma {:induction false} EndsUnlessStuck(spans: seq<Span>, n: nat)
    requires Disjoint(spans) && InBounds(spans, n)
    ensures (exists k: nat :: After(spans, n, k) >= n) <==> !Stuck(spans, n)
    ensures (forall s | s in spans :: s.start < s.end) ==> !Stuck(spans, n)
  {
    if Stuck(spans, n) {
      var i :| 0 <= i < n && StuckAt(spans, n, i);
      forall k: nat ensures After(spans, n, k) < n {
        NeverPast(spans, n, i, k);
      }
    } else {
      KeepsMoving(spans, n, n);
    }
  }

  /** One empty match on a line of one character: the loop never leaves the first position. */
  lemma {:induction false} EmptyMatchNeverEnds(k: nat)
    ensures After(Accepted(Flatten([Rule("any", [(0, 0)])])), 1, k) == 0
  {
    var e := Span(0, 0, "any");
    EmptyMatchAccepted(Rule("any", [(0, 0)]), e);
    assert FirstAt([e], 0) == 0;
    assert StuckAt([e], 1, 0);
    NeverPast([e], 1, 0, k);
  }

  lemma {:induction false} EmptyMatchAccepted(r: Rule, e: Span)
    requires r.matches == [(e.start, e.end)] && r.ptype == e.ptype
    ensures Accepted(Flatten([r])) == [e]
  {
    assert [r][..0] == [];
    assert Flatten([r]) == [] + SpansOf(r) == [e];
    assert [] + [e] == [e];
    AcceptedGrows([], e);
  }

  // ----- rendering ----------------------------------------------------------

  /** Spans left to right, none starting before another ends, each within [from, to). */
  ghost predicate Ordered(spans: seq<Span>, from: nat, to: nat) {
    && (forall s | s in spans :: from <= s.start < s.end <= to)
    && (forall i, j | 0 <= i < j < |spans| :: spans[i].end <= spans[j].start)
  }

  function PieceOf(line: string, s: Span): Piece
    requires s.start <= s.end <= |line|
  {
    var text := line[s.start..s.end];
    if ValidPtype(s.ptype) then Link(s.ptype, text) else Plain(text)
  }

  /** Every span in its place as a piece, with the text between them. */
  ghost predicate Renders(line: string, spans: seq<Span>, out: seq<Piece>)
    requires Ordered(spans, 0, |line|)
  {
    && |out| == 2 * |spans| + 1
    && (forall i | 0 <= i < |spans| :: out[2 * i + 1] == PieceOf(line, spans[i]))
    && (forall i | 0 <= i <= |spans| ::
         out[2 * i] == Plain(line[(if i == 0 then 0 else spans[i - 1].end)..(if i == |spans| then |line| else spans[i].start)]))
  }

  lemma {:induction false} VisibleAfter(out: seq<Piece>, p: Piece)
    ensures Visible(out + [p]) == Visible(out) + p.text
  {
    assert (out + [p])[..|out|] == out;
  }

  // ----- the annotator ------------------------------------------------------

  /** taken marks exactly the positions covered by the spans. */
  ghost predicate Marked(taken: seq<bool>, spans: seq<Span>) {
    forall i | 0 <= i < |taken| :: taken[i] <==> exists s | s in spans :: s.start <= i < s.end
  }

  lemma {:induction false} ClashIsMarked(taken: seq<bool>, spans: seq<Span>, m: Span)
    requires Marked(taken, spans) && m.end <= |taken| && InBounds(spans, |taken|)
    ensures Clashes(spans, m) ==> exists k :: m.start <= k < m.end && taken[k]
  {
    if s :| s in spans && Overlap(s, m) {
      var k := if s.start < m.start then m.start else s.start;
      assert taken[k];
    }
  }

  method Claim(taken: array<bool>, spans: seq<Span>, m: Span) returns (claimed: seq<Span>)
    requires Marked(taken[..], spans) && m.start <= m.end <= taken.Length && InBounds(spans, taken.Length)
    modifies taken
    ensures Marked(taken[..], claimed)
    ensures claimed == if Clashes(spans, m) then spans else spans + [m]
  {
    for i := m.start to m.end
      invariant forall k | m.start <= k < i :: !taken[k]
    {
      if taken[i] {
        assert taken[..][i];
        var s :| s in spans && s.start <= i < s.end;
        assert Overlap(s, m);
        return spans;
      }
    }
    ClashIsMarked(taken[..], spans, m);
    ghost var before := taken[..];
    for i := m.start to m.end
      invariant forall k | 0 <= k < taken.Length :: taken[k] == (before[k] || m.start <= k < i)
    {
      taken[i] := true;
    }
    claimed := spans + [m];
    forall i | 0 <= i < taken.Length
      ensures taken[i] <==> exists s | s in claimed :: s.start <= i < s.end
    {
      if before[i] {
        var s :| s in spans && s.start <= i < s.end;
        assert s in claimed;
      } else if m.start <= i < m.end {
        assert m in claimed;
      }
    }
  }

  /** The matches of one rule, after those in done. */
  method ClaimRule(taken: array<bool>, spans: seq<Span>, r: Rule, ghost done: seq<Span>) returns (claimed: seq<Span>)
    requires InBounds(done + SpansOf(r), taken.Length)
    requires Marked(taken[..], spans) && spans == Accepted(done)
    modifies taken
    ensures Marked(taken[..], claimed) && claimed == Accepted(done + SpansOf(r))
  {
    hide Marked, Accepted, Clashes;
    ghost var mine := SpansOf(r);
    claimed := spans;
    assert done + mine[..0] == done;
    for i := 0 to |r.matches|
      invariant claimed == Accepted(done + mine[..i]) && Marked(taken[..], claimed)
    {
      var m := Span(r.matches[i].0, r.matches[i].1, r.ptype);
      assert m == mine[i] && m in done + mine;
      assert done + mine[..i + 1] == (done + mine[..i]) + [m];
      AcceptedGrows(done + mine[..i], m);
      AcceptedIsMaximal(done + mine[..i]);
      claimed := Claim(taken, claimed, m);
    }
    assert done + mine[..|mine|] == done + mine;
  }

  method ClaimAll(n: nat, rules: seq<Rule>) returns (spans: seq<Span>)
    requires InBounds(Flatten(rules), n)
    ensures spans == Accepted(Flatten(rules))
  {
    hide Accepted, Clashes, SpansOf;
    var taken := new bool[n](i => false);
    spans := [];
    NothingAccepted();
    for r := 0 to |rules|
      invariant spans == Accepted(Flatten(rules[..r])) && Marked(taken[..], spans)
    {
      assert rules[..r + 1][..r] == rules[..r];
      FlattenPrefix(rules, r + 1);
      spans := ClaimRule(taken, spans, rules[r], Flatten(rules[..r]));
    }
    assert rules[..|rules|] == rules;
  }

  lemma {:induction false} NothingAccepted()
    ensures Accepted([]) == []
  {
  }

  /** What the first rules match is among what all match. */
  lemma {:induction false} FlattenPrefix(rules: seq<Rule>, r: nat)
    requires r <= |rules|
    ensures forall m | m in Flatten(rules[..r]) :: m in Flatten(rules)
    decreases |rules|
  {
    if r < |rules| {
      FlattenPrefix(rules[..|rules| - 1], r);
      assert rules[..|rules| - 1][..r] == rules[..r];
    } else {
      assert rules[..r] == rules;
    }
  }

  /** Left to right, the non-empty spans. */
  method Order(spans: seq<Span>, n: nat) returns (ordered: seq<Span>)
    requires Disjoint(spans) && InBounds(spans, n) && !Stuck(spans, n)
    ensures Ordered(ordered, 0, n)
    ensures forall s :: s in ordered <==> s in spans && s.start < s.end
  {
    hide Disjoint, StuckAt;
    ordered := [];
    var i := 0;
    assert !Inside(spans, 0);
    while i < n
      invariant i <= n && !Inside(spans, i) && Ordered(ordered, 0, i)
      invariant forall s :: s in ordered <==> s in spans && s.start < s.end && s.start < i
      decreases n - i
    {
      assert !StuckAt(spans, n, i);
      Advances(spans, n, i);
      var found := false;
      for k := 0 to |spans|
        invariant !found && forall j | 0 <= j < k :: spans[j].start != i
      {
        if spans[k].start == i {
          assert k == FirstAt(spans, i);
          OnlyOneStarts(spans, k);
          ordered := ordered + [spans[k]];
          i := spans[k].end;
          found := true;
          break;
        }
      }
      if !found {
        assert FirstAt(spans, i) == |spans|;
        i := i + 1;
      }
    }
  }

  /** No other non-empty span starts within a non-empty span. */
  lemma {:induction false} OnlyOneStarts(spans: seq<Span>, k: nat)
    requires Disjoint(spans) && k < |spans| && spans[k].start < spans[k].end
    ensures forall s | s in spans && s.start < s.end && spans[k].start <= s.start < spans[k].end :: s == spans[k]
  {
    forall s | s in spans && s.start < s.end && spans[k].start <= s.start < spans[k].end
      ensures s == spans[k]
    {
      var j :| 0 <= j < |spans| && spans[j] == s;
      if j != k { assert Overlap(spans[j], spans[k]); }
    }
  }

  /** The first k spans rendered, with the text before each. */
  ghost predicate RendersFirst(line: string, spans: seq<Span>, out: seq<Piece>, k: nat)
    requires k <= |spans| && Ordered(spans, 0, |line|)
  {
    && |out| == 2 * k
    && (forall i | 0 <= i < k :: out[2 * i + 1] == PieceOf(line, spans[i]))
    && (forall i | 0 <= i < k :: out[2 * i] == Plain(line[(if i == 0 then 0 else spans[i - 1].end)..spans[i].start]))
  }

  lemma {:induction false} RendersNext(line: string, spans: seq<Span>, out: seq<Piece>, k: nat)
    requires k < |spans| && Ordered(spans, 0, |line|) && RendersFirst(line, spans, out, k)
    ensures var pos := if k == 0 then 0 else spans[k - 1].end;
      pos <= spans[k].start && RendersFirst(line, spans, out + [Plain(line[pos..spans[k].start]), PieceOf(line, spans[k])], k + 1)
  {
  }

  lemma {:induction false} ShowsMore(line: string, out: seq<Piece>, pos: nat, s: Span)
    requires pos <= s.start <= s.end <= |line| && Visible(out) == line[..pos]
    ensures Visible(out + [Plain(line[pos..s.start]), PieceOf(line, s)]) == line[..s.end]
  {
    hide Visible, ValidPtype;
    var gap := Plain(line[pos..s.start]);
    VisibleAfter(out, gap);
    VisibleAfter(out + [gap], PieceOf(line, s));
    assert out + [gap, PieceOf(line, s)] == (out + [gap]) + [PieceOf(line, s)];
    assert line[..pos] + line[pos..s.start] + line[s.start..s.end] == line[..s.end];
  }

  method Render(line: string, ordered: seq<Span>) returns (out: seq<Piece>)
    requires Ordered(ordered, 0, |line|)
    ensures Visible(out) == line && Renders(line, ordered, out)
  {
    hide Visible, RendersFirst, ValidPtype;
    out := [];
    var pos := 0;
    NothingRendered(line, ordered);
    for k := 0 to |ordered|
      invariant pos == (if k == 0 then 0 else ordered[k - 1].end) <= |line|
      invariant Visible(out) == line[..pos] && RendersFirst(line, ordered, out, k)
    {
      var s := ordered[k];
      var text := line[s.start..s.end];
      RendersNext(line, ordered, out, k);
      ShowsMore(line, out, pos, s);
      out := out + [Plain(line[pos..s.start]), if ValidPtype(s.ptype) then Link(s.ptype, text) else Plain(text)];
      pos := s.end;
    }
    VisibleAfter(out, Plain(line[pos..]));
    assert line[..pos] + line[pos..] == line;
    RendersLast(line, ordered, out, pos);
    out := out + [Plain(line[pos..])];
  }

  lemma {:induction false} NothingRendered(line: string, spans: seq<Span>)
    requires Ordered(spans, 0, |line|)
    ensures RendersFirst(line, spans, [], 0) && Visible([]) == line[..0]
  {
  }

  lemma {:induction false} RendersLast(line: string, spans: seq<Span>, out: seq<Piece>, pos: nat)
    requires Ordered(spans, 0, |line|) && RendersFirst(line, spans, out, |spans|)
    requires pos == (if spans == [] then 0 else spans[|spans| - 1].end)
    ensures pos <= |line| && Renders(line, spans, out + [Plain(line[pos..])])
  {
    assert line[pos..|line|] == line[pos..];
  }

  /**
   The annotated line shows the same text as the line. Its pieces are the non-empty accepted matches, each
   once and from left to right, as links when their type is a legal name, and the plain text between them.
   shown lists those matches.
   */
  method Line(line: string, rules: seq<Rule>) returns (out: seq<Piece>, shown: seq<Span>)
    requires InBounds(Flatten(rules), |line|)
    requires !Stuck(Accepted(Flatten(rules)), |line|)
    ensures Visible(out) == line
    ensures Ordered(shown, 0, |line|) && Renders(line, shown, out)
    ensures forall s :: s in shown <==> s in Accepted(Flatten(rules)) && s.start < s.end
  {
    hide Visible, Stuck, Accepted, Flatten;
    var spans := ClaimAll(|line|, rules);
    AcceptedIsMaximal(Flatten(rules));
    if |spans| == 0 {
      JustText(line);
      return [Plain(line)], [];
    }
    shown := Order(spans, |line|);
    out := Render(line, shown);
  }

  lemma {:induction false} JustText(line: string)
    ensures Visible([Plain(line)]) == line && Renders(line, [], [Plain(line)])
  {
    VisibleAfter([], Plain(line));
    assert [] + [Plain(line)] == [Plain(line)] && "" + line == line;
    assert line[0..|line|] == line;
  }
}
