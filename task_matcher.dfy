/** Marking checkbox tasks: the status table, the line pattern
    `\[[^\]]\]\s+<taskText>(?:\s|$)` with `taskText` taken literally, the regular-expression
    replacement that rewrites only the marker character, and the `MarkTask` operation that
    applies it to every line of a note. */
module TaskMatcher {
  import opened Common
  import opened Text
  import opened PathGuard

  // ---------------------------------------------------------------------------
  // Status names and marker characters

  const ValidStatuses: seq<string> := ["Completed", "InProgress", "Forwarded", "Scheduled", "Open"]

  /** The `switch` on a status name; its default arm gives ' ', but it is only reached for
      names in `ValidStatuses`. */
  function CheckboxChar(status: string): char {
    match status
    case "Completed" => 'x'
    case "InProgress" => '/'
    case "Forwarded" => '>'
    case "Scheduled" => '<'
    case "Open" => ' '
    case _ => ' '
  }

  /** Inverse of the table: the status name a marker character stands for. */
  function StatusOfMarker(c: char): Option<string> {
    if c == 'x' then Some("Completed")
    else if c == '/' then Some("InProgress")
    else if c == '>' then Some("Forwarded")
    else if c == '<' then Some("Scheduled")
    else if c == ' ' then Some("Open")
    else None
  }

  /** The table is a bijection between the five status names and their markers. */
  lemma StatusTableBijective(status: string, c: char)
    ensures status in ValidStatuses ==> StatusOfMarker(CheckboxChar(status)) == Some(status)
    ensures StatusOfMarker(c).Some? ==>
      StatusOfMarker(c).value in ValidStatuses && CheckboxChar(StatusOfMarker(c).value) == c
  {
  }

  /** No status writes ']', '[' or a line break, so a rewritten marker stays a marker. */
  lemma MarkerIsPlain(status: string)
    ensures CheckboxChar(status) != ']' && CheckboxChar(status) != '[' && CheckboxChar(status) != '\n'
  {
  }

  // ---------------------------------------------------------------------------
  // The line pattern

  /** The text `t` followed by one whitespace character or the end of the line, at index `p`;
      the number of characters consumed, as `taskText(?:\s|$)` does. */
  function TailLen(line: string, t: string, p: nat): (r: Option<nat>)
    requires p <= |line|
    ensures r.Some? ==> p + r.value <= |line| && r.value >= |t|
  {
    if p + |t| <= |line| && line[p..p + |t|] == t then
      if p + |t| < |line| && IsWhite(line[p + |t|]) then Some(|t| + 1)
      else if p + |t| == |line| then Some(|t|)
      else None
    else None
  }

  /** `\s+` after the marker, greedy with backtracking: whitespace runs of length
      k, k - 1, ..., 1 are tried in turn until the tail matches. */
  function TryRun(line: string, t: string, q: nat, k: nat): (r: Option<nat>)
    requires q + 3 + k <= |line|
    ensures r.Some? ==> q + r.value <= |line| && r.value >= 4
    decreases k
  {
    if k == 0 then None
    else match TailLen(line, t, q + 3 + k)
      case Some(m) => Some(3 + k + m)
      case None => TryRun(line, t, q, k - 1)
  }

  /** Length of the match of the task pattern that starts at index `q`, if there is one. */
  function MatchLen(line: string, t: string, q: nat): (r: Option<nat>)
    ensures r.Some? ==> q + r.value <= |line| && r.value >= 4
    ensures r.Some? ==> line[q] == '[' && line[q + 1] != ']' && line[q + 2] == ']'
  {
    if q + 3 <= |line| && line[q] == '[' && line[q + 1] != ']' && line[q + 2] == ']' then
      TryRun(line, t, q, WhiteRun(line, q + 3))
    else None
  }

  /** Reference reading of the pattern at index `q`: a marker `[c]` with c != ']', at least one
      whitespace character, `t` literally, then whitespace or the end of the line. */
  ghost predicate OccursAt(line: string, t: string, q: nat) {
    q + 3 <= |line| && line[q] == '[' && line[q + 1] != ']' && line[q + 2] == ']' &&
    exists k :: WhiteThenText(line, t, q, k)
  }

  /** Behind a marker at `q`: exactly `k` >= 1 whitespace characters, `t`, then whitespace or
      the end of the line. */
  ghost predicate WhiteThenText(line: string, t: string, q: nat, k: nat) {
    var p := q + 3;
    1 <= k && p + k + |t| <= |line|
    && (forall j :: p <= j < p + k ==> IsWhite(line[j]))
    && line[p + k..p + k + |t|] == t
    && (p + k + |t| == |line| || IsWhite(line[p + k + |t|]))
  }

  /** The tail matches after a whitespace run of length `k` behind the marker at `q`. */
  predicate TailAfter(line: string, t: string, q: nat, k: nat) {
    q + 3 + k <= |line| && TailLen(line, t, q + 3 + k).Some?
  }

  lemma {:induction false} TryRunSound(line: string, t: string, q: nat, k: nat)
    requires q + 3 + k <= |line|
    requires forall j :: q + 3 <= j < q + 3 + k ==> IsWhite(line[j])
    requires TryRun(line, t, q, k).Some?
    ensures exists k' :: 1 <= k' <= k && TailAfter(line, t, q, k')
    decreases k
  {
    if TailLen(line, t, q + 3 + k).None? {
      TryRunSound(line, t, q, k - 1);
    } else {
      assert TailAfter(line, t, q, k);
    }
  }

  lemma {:induction false} TryRunComplete(line: string, t: string, q: nat, k: nat, k': nat)
    requires q + 3 + k <= |line|
    requires 1 <= k' <= k && TailAfter(line, t, q, k')
    ensures TryRun(line, t, q, k).Some?
    decreases k
  {
    if k != k' && TailLen(line, t, q + 3 + k).None? {
      TryRunComplete(line, t, q, k - 1, k');
    }
  }

  /** The scanner matches at `q` exactly when the reference reading of the pattern holds there. */
  lemma MatchLenIffOccurs(line: string, t: string, q: nat)
    ensures MatchLen(line, t, q).Some? <==> OccursAt(line, t, q)
  {
    if q + 3 <= |line| && line[q] == '[' && line[q + 1] != ']' && line[q + 2] == ']' {
      var w := WhiteRun(line, q + 3);
      if MatchLen(line, t, q).Some? {
        TryRunSound(line, t, q, w);
        var k :| 1 <= k <= w && TailAfter(line, t, q, k);
        assert WhiteThenText(line, t, q, k);
      }
      if OccursAt(line, t, q) {
        var k :| WhiteThenText(line, t, q, k);
        assert k <= w;
        assert TailAfter(line, t, q, k);
        TryRunComplete(line, t, q, w, k);
      }
    }
  }

  /** `Regex.IsMatch(line, pattern)`: the pattern matches somewhere in the line. */
  predicate IsMatch(line: string, t: string) {
    exists q :: 0 <= q < |line| && MatchLen(line, t, q).Some?
  }

  // ---------------------------------------------------------------------------
  // The replacement

  /** Start indices of the matches `Regex.Replace` rewrites when it scans from index `p`:
      leftmost first, and each search resumes where the previous match ended. */
  function MatchStarts(line: string, t: string, p: nat): (s: set<nat>)
    ensures forall q :: q in s ==> p <= q < |line|
    decreases |line| - p
  {
    if p >= |line| then {}
    else
      var m := MatchLen(line, t, p);
      if m.Some? then {p} + MatchStarts(line, t, p + m.value) else MatchStarts(line, t, p + 1)
  }

  /** Every rewritten position is the start of a match of the pattern. */
  lemma {:induction false} MatchStartsAreMatches(line: string, t: string, p: nat, q: nat)
    requires q in MatchStarts(line, t, p)
    ensures MatchLen(line, t, q).Some?
    decreases |line| - p
  {
    var m := MatchLen(line, t, p);
    if q != p {
      if m.Some? {
        MatchStartsAreMatches(line, t, p + m.value, q);
      } else {
        MatchStartsAreMatches(line, t, p + 1, q);
      }
    }
  }

  /** `Regex.Replace(line, pattern, "[" + ch + "]$1")` on the part of the line from index `p`:
      each match is copied with its marker character replaced by `ch`. */
  function ReplaceFrom(line: string, t: string, ch: char, p: nat): string
    decreases |line| - p
  {
    if p >= |line| then []
    else
      var m := MatchLen(line, t, p);
      if m.Some? then ['[', ch] + line[p + 2..p + m.value] + ReplaceFrom(line, t, ch, p + m.value)
      else [line[p]] + ReplaceFrom(line, t, ch, p + 1)
  }

  function ReplaceLine(line: string, t: string, ch: char): string {
    ReplaceFrom(line, t, ch, 0)
  }

  /** Reference reading of the rewrite: `line` from index `p` on, with the character after each
      index in `starts` replaced by `ch`. */
  function Stamp(line: string, starts: set<nat>, ch: char, p: nat): (r: string)
    requires p <= |line|
    ensures |r| == |line| - p
  {
    seq(|line| - p, i requires 0 <= i < |line| - p =>
      if p + i >= 1 && p + i - 1 in starts then ch else line[p + i])
  }

  lemma StampSkip(line: string, starts: set<nat>, ch: char, p: nat)
    requires p < |line| && forall q :: q in starts ==> p < q
    ensures [line[p]] + Stamp(line, starts, ch, p + 1) == Stamp(line, starts, ch, p)
  {
  }

  lemma StampMatch(line: string, starts: set<nat>, ch: char, p: nat, e: nat)
    requires p + 4 <= e <= |line| && line[p] == '['
    requires forall q :: q in starts ==> e <= q
    ensures ['[', ch] + line[p + 2..e] + Stamp(line, starts, ch, e) == Stamp(line, {p} + starts, ch, p)
  {
    var r, s := ['[', ch] + line[p + 2..e] + Stamp(line, starts, ch, e), Stamp(line, {p} + starts, ch, p);
    forall i | 0 <= i < |s| ensures r[i] == s[i] {
      if 2 <= i < e - p {
        assert r[i] == line[p + 2..e][i - 2];
      }
    }
  }

  /** One step of the scan at a match: the marker is rewritten and the scan resumes after it. */
  lemma StepAtMatch(line: string, t: string, ch: char, p: nat)
    requires MatchLen(line, t, p).Some?
    ensures var e := p + MatchLen(line, t, p).value;
      ReplaceFrom(line, t, ch, p) == ['[', ch] + line[p + 2..e] + ReplaceFrom(line, t, ch, e) &&
      MatchStarts(line, t, p) == {p} + MatchStarts(line, t, e)
  {
  }

  /** One step of the scan where nothing matches: the character is copied. */
  lemma StepNoMatch(line: string, t: string, ch: char, p: nat)
    requires p < |line| && MatchLen(line, t, p).None?
    ensures ReplaceFrom(line, t, ch, p) == [line[p]] + ReplaceFrom(line, t, ch, p + 1)
    ensures MatchStarts(line, t, p) == MatchStarts(line, t, p + 1)
  {
  }

  /** The scan rewrites the middle character of every marker at which it found a match, and
      copies every other character. */
  lemma {:induction false} ReplaceFromIsStamp(line: string, t: string, ch: char, p: nat)
    requires p <= |line|
    ensures ReplaceFrom(line, t, ch, p) == Stamp(line, MatchStarts(line, t, p), ch, p)
    decreases |line| - p
  {
    if p < |line| {
      var m := MatchLen(line, t, p);
      if m.Some? {
        ReplaceFromIsStamp(line, t, ch, p + m.value);
        StampMatch(line, MatchStarts(line, t, p + m.value), ch, p, p + m.value);
        StepAtMatch(line, t, ch, p);
      } else {
        ReplaceFromIsStamp(line, t, ch, p + 1);
        StampSkip(line, MatchStarts(line, t, p + 1), ch, p);
        StepNoMatch(line, t, ch, p);
      }
    }
  }

  lemma ReplaceLineScope(line: string, t: string, ch: char)
    ensures |ReplaceLine(line, t, ch)| == |line|
    ensures forall j :: 0 <= j < |line| && !(j >= 1 && j - 1 in MatchStarts(line, t, 0)) ==>
      ReplaceLine(line, t, ch)[j] == line[j]
    ensures forall q :: q in MatchStarts(line, t, 0) ==>
      q + 3 <= |line| && line[q] == '[' && line[q + 2] == ']' && ReplaceLine(line, t, ch)[q + 1] == ch
  {
    ReplaceFromIsStamp(line, t, ch, 0);
    forall q | q in MatchStarts(line, t, 0)
      ensures q + 3 <= |line| && line[q] == '[' && line[q + 2] == ']' && ReplaceLine(line, t, ch)[q + 1] == ch
    {
      MatchStartsAreMatches(line, t, 0, q);
      assert q + 1 - 1 == q;
    }
  }

  lemma {:induction false} LeftmostIsRewritten(line: string, t: string, p: nat, q: nat)
    requires p <= q < |line| && MatchLen(line, t, q).Some?
    requires forall j :: p <= j < q ==> MatchLen(line, t, j).None?
    ensures q in MatchStarts(line, t, p)
    decreases q - p
  {
    if p < q {
      LeftmostIsRewritten(line, t, p + 1, q);
    }
  }

  /** The leftmost match at or before a given match. */
  lemma {:induction false} Leftmost(line: string, t: string, q: nat) returns (q0: nat)
    requires MatchLen(line, t, q).Some?
    ensures q0 <= q && MatchLen(line, t, q0).Some?
    ensures forall j :: 0 <= j < q0 ==> MatchLen(line, t, j).None?
    decreases q
  {
    if j :| 0 <= j < q && MatchLen(line, t, j).Some? {
      q0 := Leftmost(line, t, j);
    } else {
      q0 := q;
    }
  }

  /** A line is rewritten exactly when it matches: a matching line has at least one marker
      rewritten, and a line that does not match comes back unchanged. */
  lemma ReplaceChangesIffMatch(line: string, t: string, ch: char)
    ensures IsMatch(line, t) ==> MatchStarts(line, t, 0) != {}
    ensures !IsMatch(line, t) ==> ReplaceLine(line, t, ch) == line
  {
    ReplaceLineScope(line, t, ch);
    forall q | q in MatchStarts(line, t, 0) ensures IsMatch(line, t) {
      MatchStartsAreMatches(line, t, 0, q);
    }
    if IsMatch(line, t) {
      var q :| 0 <= q < |line| && MatchLen(line, t, q).Some?;
      var q0 := Leftmost(line, t, q);
      LeftmostIsRewritten(line, t, 0, q0);
    }
  }

  // ---------------------------------------------------------------------------
  // Idempotence of the replacement

  /** `t` holds no square bracket. */
  predicate NoBrackets(t: string) {
    '[' !in t && ']' !in t
  }

  /** `b` differs from `a` only in marker positions: each differing character sits between a
      '[' and a ']' of `a`, and neither version of it is ']'. */
  ghost predicate SameUpToMarkers(a: string, b: string) {
    |a| == |b| &&
    forall j {:trigger a[j], b[j]} :: 0 <= j < |a| && a[j] != b[j] ==>
      0 < j < |a| - 1 && a[j - 1] == '[' && a[j + 1] == ']' && a[j] != ']' && b[j] != ']'
  }

  lemma SameUpToMarkersSymmetric(a: string, b: string)
    requires SameUpToMarkers(a, b)
    ensures SameUpToMarkers(b, a)
  {
    forall j | 0 <= j < |b| && b[j] != a[j]
      ensures 0 < j < |b| - 1 && b[j - 1] == '[' && b[j + 1] == ']'
    {
      var here, next := a[j], a[j + 1];
      assert a[j - 1] != b[j - 1] ==> here == ']';
      assert a[j + 1] != b[j + 1] ==> next != ']';
    }
  }

  lemma {:induction false} WhiteRunStable(a: string, b: string, i: nat)
    requires SameUpToMarkers(a, b)
    requires 0 < i <= |a| && a[i - 1] != '['
    ensures WhiteRun(a, i) == WhiteRun(b, i)
    decreases |a| - i
  {
    if i < |a| {
      assert a[i] == b[i];
      if IsWhite(a[i]) {
        WhiteRunStable(a, b, i + 1);
      }
    }
  }

  /** Where `a` spells `t` right after a non-'[' character, `b` spells it too and agrees with `a`
      on the character that follows. */
  lemma TextAgrees(a: string, b: string, t: string, p: nat)
    requires SameUpToMarkers(a, b) && NoBrackets(t) && t != []
    requires 0 < p && p + |t| <= |a| && a[p - 1] != '[' && a[p..p + |t|] == t
    ensures b[p..p + |t|] == t
    ensures p + |t| < |a| ==> a[p + |t|] == b[p + |t|]
  {
    forall j | p <= j < p + |t| ensures a[j] == b[j] {
      var before := a[j - 1];
      assert a[j] != b[j] ==> before == '[';
      if j > p { assert a[j - 1] == t[j - 1 - p]; }
    }
    assert a[p..p + |t|] == b[p..p + |t|];
    if p + |t| < |a| {
      assert a[p + |t| - 1] == t[|t| - 1];
    }
  }

  lemma TailLenStable(a: string, b: string, t: string, p: nat)
    requires SameUpToMarkers(a, b) && SameUpToMarkers(b, a) && NoBrackets(t) && t != []
    requires 0 < p <= |a| && a[p - 1] != '[' && b[p - 1] != '['
    ensures TailLen(a, t, p) == TailLen(b, t, p)
  {
    if p + |t| <= |a| && a[p..p + |t|] == t {
      TextAgrees(a, b, t, p);
    } else if p + |t| <= |b| && b[p..p + |t|] == t {
      TextAgrees(b, a, t, p);
    }
  }

  lemma {:induction false} TryRunStable(a: string, b: string, t: string, q: nat, k: nat)
    requires |a| == |b| && q + 3 + k <= |a|
    requires forall p :: q + 3 < p <= q + 3 + k ==> TailLen(a, t, p) == TailLen(b, t, p)
    ensures TryRun(a, t, q, k) == TryRun(b, t, q, k)
    decreases k
  {
    if k > 0 {
      TryRunStable(a, b, t, q, k - 1);
    }
  }

  /** Behind a whitespace run after a marker, both versions have the same tails. */
  lemma TailsStable(a: string, b: string, t: string, q: nat, k: nat)
    requires SameUpToMarkers(a, b) && SameUpToMarkers(b, a) && NoBrackets(t) && t != []
    requires q + 3 + k <= |a|
    requires forall j :: q + 3 <= j < q + 3 + k ==> IsWhite(a[j]) && IsWhite(b[j])
    ensures forall p :: q + 3 < p <= q + 3 + k ==> TailLen(a, t, p) == TailLen(b, t, p)
  {
    forall p | q + 3 < p <= q + 3 + k ensures TailLen(a, t, p) == TailLen(b, t, p) {
      assert IsWhite(a[p - 1]) && IsWhite(b[p - 1]);
      TailLenStable(a, b, t, p);
    }
  }

  /** Changing marker characters (to anything but ']') changes no match of a bracket-free text. */
  lemma MatchLenStable(a: string, b: string, t: string, q: nat)
    requires SameUpToMarkers(a, b) && NoBrackets(t) && t != []
    ensures MatchLen(a, t, q) == MatchLen(b, t, q)
  {
    SameUpToMarkersSymmetric(a, b);
    if q + 3 <= |a| {
      if a[q] != b[q] {
        assert a[q + 1] == ']';
        var inner := a[q + 1];
        assert a[q + 1] != b[q + 1] ==> inner != ']';
      } else if a[q + 2] == b[q + 2] && a[q] == '[' && a[q + 1] != ']' && a[q + 2] == ']' {
        assert b[q + 1] != ']';
        WhiteRunStable(a, b, q + 3);
        var w := WhiteRun(a, q + 3);
        TailsStable(a, b, t, q, w);
        TryRunStable(a, b, t, q, w);
      } else if a[q + 2] == b[q + 2] {
        var inner, inner' := a[q + 1], b[q + 1];
        assert inner != inner' ==> inner != ']' && inner' != ']';
      }
    }
  }

  lemma MatchStartsStable(a: string, b: string, t: string, p: nat)
    requires SameUpToMarkers(a, b) && NoBrackets(t) && t != []
    ensures MatchStarts(a, t, p) == MatchStarts(b, t, p)
  {
    forall q | p <= q < |a| ensures MatchLen(a, t, q) == MatchLen(b, t, q) {
      MatchLenStable(a, b, t, q);
    }
    StartsOfSameMatches(a, b, t, p);
  }

  /** Two lines of one length with the same matches from `p` on have the same match starts. */
  lemma {:induction false} StartsOfSameMatches(a: string, b: string, t: string, p: nat)
    requires |a| == |b|
    requires forall q :: p <= q < |a| ==> MatchLen(a, t, q) == MatchLen(b, t, q)
    ensures MatchStarts(a, t, p) == MatchStarts(b, t, p)
    decreases |a| - p
  {
    if p < |a| {
      var m := MatchLen(a, t, p);
      if m.Some? {
        StartsOfSameMatches(a, b, t, p + m.value);
      } else {
        StartsOfSameMatches(a, b, t, p + 1);
      }
    }
  }

  lemma IsMatchStable(a: string, b: string, t: string)
    requires SameUpToMarkers(a, b) && NoBrackets(t) && t != []
    ensures IsMatch(a, t) <==> IsMatch(b, t)
  {
    forall q | 0 <= q < |a| ensures MatchLen(a, t, q) == MatchLen(b, t, q) {
      MatchLenStable(a, b, t, q);
    }
  }

  /** A rewritten line differs from the original only in marker characters. */
  lemma ReplaceKeepsShape(line: string, t: string, ch: char)
    requires ch != ']'
    ensures SameUpToMarkers(line, ReplaceLine(line, t, ch))
  {
    ReplaceLineScope(line, t, ch);
    var r := ReplaceLine(line, t, ch);
    forall j | 0 <= j < |line| && line[j] != r[j]
      ensures 0 < j < |line| - 1 && line[j - 1] == '[' && line[j + 1] == ']' && line[j] != ']' && r[j] != ']'
    {
      assert j - 1 in MatchStarts(line, t, 0);
      MatchStartsAreMatches(line, t, 0, j - 1);
      assert j - 1 + 1 == j;
    }
  }

  /** Rewriting a line twice for the same bracket-free task text and status gives the same line as
      rewriting it once. */
  lemma ReplaceIdempotent(line: string, t: string, ch: char)
    requires NoBrackets(t) && t != [] && ch != ']'
    ensures ReplaceLine(ReplaceLine(line, t, ch), t, ch) == ReplaceLine(line, t, ch)
    ensures IsMatch(ReplaceLine(line, t, ch), t) <==> IsMatch(line, t)
  {
    var once := ReplaceLine(line, t, ch);
    ReplaceKeepsShape(line, t, ch);
    MatchStartsStable(line, once, t, 0);
    IsMatchStable(line, once, t);
    ReplaceLineScope(line, t, ch);
    ReplaceLineScope(once, t, ch);
  }

  // Single evaluation steps of the scanner, for lines of known shape.

  /** A marker at `q` followed by exactly one whitespace character and then `t` and whitespace
      or the end of the line matches there. */
  lemma MatchAfterOneSpace(line: string, t: string, q: nat)
    requires q + 4 < |line| && q + 4 + |t| <= |line|
    requires line[q] == '[' && line[q + 1] != ']' && line[q + 2] == ']'
    requires IsWhite(line[q + 3]) && !IsWhite(line[q + 4])
    requires line[q + 4..q + 4 + |t|] == t
    requires q + 4 + |t| == |line| || IsWhite(line[q + 4 + |t|])
    ensures MatchLen(line, t, q) == Some(4 + |t| + (if q + 4 + |t| == |line| then 0 else 1))
  {
    WhiteRunUpTo(line, q + 3, q + 4);
  }

  /** A marker at `q` followed by exactly one whitespace character, where `t` does not follow
      as a whole token, does not match there. */
  lemma NoMatchAfterOneSpace(line: string, t: string, q: nat)
    requires q + 5 <= |line|
    requires line[q] == '[' && line[q + 1] != ']' && line[q + 2] == ']'
    requires IsWhite(line[q + 3]) && !IsWhite(line[q + 4])
    requires TailLen(line, t, q + 4).None?
    ensures MatchLen(line, t, q).None?
  {
    WhiteRunUpTo(line, q + 3, q + 4);
    assert TryRun(line, t, q, 1) == TryRun(line, t, q, 0);
  }

  /** A line whose rewritten markers are known: the rewrite is the line with `ch` at each of them. */
  lemma RewriteByStarts(line: string, t: string, ch: char, starts: set<nat>, expected: string)
    requires MatchStarts(line, t, 0) == starts
    requires |expected| == |line|
    requires forall j :: 0 <= j < |line| ==> expected[j] == (if j >= 1 && j - 1 in starts then ch else line[j])
    ensures ReplaceLine(line, t, ch) == expected
  {
    ReplaceLineScope(line, t, ch);
  }

  /** With brackets inside the task text a rewrite can create a match that was not there before,
      so a second rewrite changes the line again: for any status other than Open, the text
      `[c]` on the line `[ ] [ ] [c]` is rewritten once to `[ ] [c] [c]` and then to `[c] [c] [c]`. */
  lemma NotIdempotentWithBrackets(ch: char)
    requires ch != ' ' && ch != ']'
    ensures var line, t := ['[', ' ', ']', ' ', '[', ' ', ']', ' ', '[', ch, ']'], ['[', ch, ']'];
      var once := ['[', ' ', ']', ' ', '[', ch, ']', ' ', '[', ch, ']'];
      var twice := ['[', ch, ']', ' ', '[', ch, ']', ' ', '[', ch, ']'];
      ReplaceLine(line, t, ch) == once && ReplaceLine(once, t, ch) == twice && twice != once
  {
    FirstRewrite(ch);
    SecondRewrite(ch);
    var twice := ['[', ch, ']', ' ', '[', ch, ']', ' ', '[', ch, ']'];
    assert twice[1] != ' ';
  }

  lemma FirstRewrite(ch: char)
    requires ch != ' ' && ch != ']'
    ensures ReplaceLine(['[', ' ', ']', ' ', '[', ' ', ']', ' ', '[', ch, ']'], ['[', ch, ']'], ch) ==
      ['[', ' ', ']', ' ', '[', ch, ']', ' ', '[', ch, ']']
  {
    var line, t := ['[', ' ', ']', ' ', '[', ' ', ']', ' ', '[', ch, ']'], ['[', ch, ']'];
    assert line[4..7][1] != t[1];
    NoMatchAfterOneSpace(line, t, 0);
    assert line[8..11] == t;
    MatchAfterOneSpace(line, t, 4);
    assert MatchStarts(line, t, 11) == {};
    assert MatchStarts(line, t, 4) == {4};
    assert MatchStarts(line, t, 3) == {4};
    assert MatchStarts(line, t, 2) == {4};
    assert MatchStarts(line, t, 1) == {4};
    assert MatchStarts(line, t, 0) == {4};
    RewriteByStarts(line, t, ch, {4}, ['[', ' ', ']', ' ', '[', ch, ']', ' ', '[', ch, ']']);
  }

  lemma SecondRewrite(ch: char)
    requires ch != ' ' && ch != ']'
    ensures ReplaceLine(['[', ' ', ']', ' ', '[', ch, ']', ' ', '[', ch, ']'], ['[', ch, ']'], ch) ==
      ['[', ch, ']', ' ', '[', ch, ']', ' ', '[', ch, ']']
  {
    var once, t := ['[', ' ', ']', ' ', '[', ch, ']', ' ', '[', ch, ']'], ['[', ch, ']'];
    assert once[4..7] == t;
    MatchAfterOneSpace(once, t, 0);
    assert WhiteRun(once, 11) == 0;
    assert MatchLen(once, t, 8).None?;
    assert MatchStarts(once, t, 11) == {};
    assert MatchStarts(once, t, 10) == {};
    assert MatchStarts(once, t, 9) == {};
    assert MatchStarts(once, t, 8) == {};
    assert MatchStarts(once, t, 0) == {0};
    RewriteByStarts(once, t, ch, {0}, ['[', ch, ']', ' ', '[', ch, ']', ' ', '[', ch, ']']);
  }

  // ---------------------------------------------------------------------------
  // Lines of a note

  /** One line after the loop body: rewritten when the pattern matches, untouched otherwise. */
  function MarkedLine(line: string, t: string, ch: char): string {
    if IsMatch(line, t) then ReplaceLine(line, t, ch) else line
  }

  function MarkLines(lines: seq<string>, t: string, ch: char): (r: seq<string>)
    ensures |r| == |lines|
  {
    seq(|lines|, i requires 0 <= i < |lines| => MarkedLine(lines[i], t, ch))
  }

  /** Number of lines the pattern matches (`matchCount`). */
  function MatchCount(lines: seq<string>, t: string): (n: nat)
    ensures n <= |lines|
  {
    if lines == [] then 0
    else MatchCount(lines[..|lines| - 1], t) + (if IsMatch(lines[|lines| - 1], t) then 1 else 0)
  }

  /** Counting one more line adds one exactly when that line matches. */
  lemma MatchCountStep(lines: seq<string>, i: nat, t: string)
    requires i < |lines|
    ensures MatchCount(lines[..i + 1], t) == MatchCount(lines[..i], t) + (if IsMatch(lines[i], t) then 1 else 0)
  {
    assert lines[..i + 1][..i] == lines[..i];
  }

  /** The count is zero exactly when no line matches. */
  lemma {:induction false} MatchCountZeroIff(lines: seq<string>, t: string)
    ensures MatchCount(lines, t) == 0 <==> forall i :: 0 <= i < |lines| ==> !IsMatch(lines[i], t)
    decreases |lines|
  {
    if lines != [] {
      var init := lines[..|lines| - 1];
      MatchCountZeroIff(init, t);
      assert forall i :: 0 <= i < |init| ==> init[i] == lines[i];
    }
  }

  /** The content written back after marking, and the number of matching lines. */
  function MarkContent(content: string, t: string, ch: char): (string, nat) {
    var lines := Split(content, '\n');
    (Join(MarkLines(lines, t, ch), '\n'), MatchCount(lines, t))
  }

  datatype Marked = Marked(write: Written, count: nat)

  /** The file `MarkTask` looks up: a rooted path as given, any other path under the vault. */
  function MarkPath(filePath: string, vault: string, paths: Paths): string {
    if paths.isRooted(filePath) then filePath else paths.combine(vault, filePath)
  }

  /** The outcome of `MarkTask`: the checks in order (blank task text, blank path, unknown status,
      missing file, file outside the vault), then the rewrite, which fails when nothing matched. */
  function MarkTaskOutcome(taskText: string, status: string, filePath: string, vault: string,
                           paths: Paths, fs: string -> FileView): Result<Marked>
  {
    if IsBlank(taskText) then Err(BlankTaskText)
    else if IsBlank(filePath) then Err(BlankFilePath)
    else if status !in ValidStatuses then Err(InvalidStatus)
    else
      var file := fs(MarkPath(filePath, vault, paths));
      if !file.present then Err(FileNotFound)
      else if !InVault(file.fullName, vault) then Err(OutsideVault)
      else
        var (updated, count) := MarkContent(file.content, taskText, CheckboxChar(status));
        if count == 0 then Err(TaskNotFound)
        else Ok(Marked(Written(file.fullName, updated), count))
  }

  /** `MarkTask`: split the note into lines, rewrite every matching line in place, count them,
      and ask for the rejoined text to be written unless nothing matched. */
  method MarkTask(taskText: string, status: string, filePath: string, vault: string,
                  paths: Paths, fs: string -> FileView) returns (r: Result<Marked>)
    ensures r == MarkTaskOutcome(taskText, status, filePath, vault, paths, fs)
  {
    if IsBlank(taskText) {
      return Err(BlankTaskText);
    }
    if IsBlank(filePath) {
      return Err(BlankFilePath);
    }
    if status !in ValidStatuses {
      return Err(InvalidStatus);
    }
    var checkboxChar := CheckboxChar(status);
    var fullFilePath := if paths.isRooted(filePath) then filePath else paths.combine(vault, filePath);
    var file := fs(fullFilePath);
    if !file.present {
      return Err(FileNotFound);
    }
    if !InVault(file.fullName, vault) {
      return Err(OutsideVault);
    }
    var updated, matchCount := MarkEachLine(file.content, taskText, checkboxChar);
    if matchCount == 0 {
      return Err(TaskNotFound);
    }
    r := Ok(Marked(Written(file.fullName, updated), matchCount));
  }

  /** The loop of `MarkTask`: split the text into lines, rewrite each matching line in place in
      the line array while counting, and join the array back. */
  method MarkEachLine(content: string, t: string, ch: char) returns (updated: string, matchCount: nat)
    ensures (updated, matchCount) == MarkContent(content, t, ch)
  {
    var parts := Split(content, '\n');
    var lines := new string[|parts|](i requires 0 <= i < |parts| => parts[i]);
    assert lines[..] == parts;
    matchCount := MarkLinesInPlace(lines, t, ch);
    updated := Join(lines[..], '\n');
  }

  /** The loop of `MarkTask` over the note's lines: each matching line is rewritten in place
      and counted. */
  method MarkLinesInPlace(lines: array<string>, t: string, ch: char) returns (matchCount: nat)
    modifies lines
    ensures lines[..] == MarkLines(old(lines[..]), t, ch)
    ensures matchCount == MatchCount(old(lines[..]), t)
  {
    ghost var parts := lines[..];
    ghost var target := MarkLines(parts, t, ch);
    matchCount := 0;
    for i := 0 to lines.Length
      invariant lines[..i] == target[..i]
      invariant forall k :: i <= k < lines.Length ==> lines[k] == parts[k]
      invariant matchCount == MatchCount(parts[..i], t)
    {
      MatchCountStep(parts, i, t);
      var line, hit := MarkOne(lines[i], t, ch);
      assert line == target[i];
      lines[i] := line;
      if hit {
        matchCount := matchCount + 1;
      }
      assert lines[..i + 1] == lines[..i] + [line];
      assert target[..i + 1] == target[..i] + [target[i]];
    }
    assert parts[..lines.Length] == parts;
    assert target[..lines.Length] == target;
    assert lines[..] == lines[..lines.Length];
  }

  method MarkOne(line: string, t: string, ch: char) returns (marked: string, hit: bool)
    ensures hit == IsMatch(line, t)
    ensures marked == MarkedLine(line, t, ch)
  {
    hit := IsMatch(line, t);
    marked := line;
    if hit {
      marked := ReplaceLine(line, t, ch);
    }
  }

  /** A rewritten line gains no line break. */
  lemma ReplaceNoNewline(line: string, t: string, ch: char)
    requires '\n' !in line && ch != '\n'
    ensures '\n' !in MarkedLine(line, t, ch)
  {
    ReplaceLineScope(line, t, ch);
    var r := ReplaceLine(line, t, ch);
    forall j | 0 <= j < |r| ensures r[j] != '\n' {
      assert r[j] == ch || r[j] == line[j];
    }
  }

  /** Line structure: marking keeps the number of `'\n'`-separated lines, every line the pattern
      does not match is identical, and every matching line is the rewrite of the original. */
  lemma MarkKeepsLines(content: string, t: string, ch: char)
    requires ch != '\n'
    ensures var lines := Split(content, '\n');
      var after := Split(MarkContent(content, t, ch).0, '\n');
      |after| == |lines| &&
      forall i :: 0 <= i < |lines| ==>
        after[i] == (if IsMatch(lines[i], t) then ReplaceLine(lines[i], t, ch) else lines[i])
  {
    var lines := Split(content, '\n');
    var marked := MarkLines(lines, t, ch);
    forall i | 0 <= i < |marked| ensures '\n' !in marked[i] {
      ReplaceNoNewline(lines[i], t, ch);
    }
    SplitJoin(marked, '\n');
  }

  /** When no line matches, rejoining the split lines gives back the original text. */
  lemma NoMatchKeepsContent(content: string, t: string, ch: char)
    requires MarkContent(content, t, ch).1 == 0
    ensures MarkContent(content, t, ch).0 == content
  {
    var lines := Split(content, '\n');
    MatchCountZeroIff(lines, t);
    assert MarkLines(lines, t, ch) == lines;
  }

  /** Marking a note a second time with the same bracket-free task text and status writes the
      same text and reports the same count as the first time. */
  lemma MarkContentIdempotent(content: string, t: string, ch: char)
    requires NoBrackets(t) && t != [] && ch != ']' && ch != '\n'
    ensures var (once, n) := MarkContent(content, t, ch);
      MarkContent(once, t, ch) == (once, n)
  {
    var lines := Split(content, '\n');
    var marked := MarkLines(lines, t, ch);
    MarkKeepsLines(content, t, ch);
    forall i | 0 <= i < |marked| ensures '\n' !in marked[i] {
      ReplaceNoNewline(lines[i], t, ch);
    }
    SplitJoin(marked, '\n');
    var once := Join(marked, '\n');
    assert Split(once, '\n') == marked;
    forall i | 0 <= i < |lines|
      ensures IsMatch(marked[i], t) == IsMatch(lines[i], t)
      ensures MarkedLine(marked[i], t, ch) == marked[i]
    {
      ReplaceIdempotent(lines[i], t, ch);
      ReplaceChangesIffMatch(marked[i], t, ch);
    }
    assert MarkLines(marked, t, ch) == marked;
    MatchCountSame(lines, marked, t);
  }

  lemma {:induction false} MatchCountSame(a: seq<string>, b: seq<string>, t: string)
    requires |a| == |b|
    requires forall i :: 0 <= i < |a| ==> IsMatch(a[i], t) == IsMatch(b[i], t)
    ensures MatchCount(a, t) == MatchCount(b, t)
    decreases |a|
  {
    if a != [] {
      MatchCountSame(a[..|a| - 1], b[..|b| - 1], t);
    }
  }

  /** Marking twice through the whole operation: once the first call has written its text, a
      second call with the same arguments on that text writes it unchanged and reports the same
      count. */
  lemma MarkTaskIdempotent(taskText: string, status: string, filePath: string, vault: string,
                           paths: Paths, fs: string -> FileView, fs': string -> FileView)
    requires NoBrackets(taskText)
    requires MarkTaskOutcome(taskText, status, filePath, vault, paths, fs).Ok?
    requires var w := MarkTaskOutcome(taskText, status, filePath, vault, paths, fs).value.write;
      fs'(MarkPath(filePath, vault, paths)) == FileView(true, w.path, w.content)
    ensures MarkTaskOutcome(taskText, status, filePath, vault, paths, fs') ==
      MarkTaskOutcome(taskText, status, filePath, vault, paths, fs)
  {
    MarkerIsPlain(status);
    MarkContentIdempotent(fs(MarkPath(filePath, vault, paths)).content, taskText, CheckboxChar(status));
  }

  /** A name outside the five is refused before the file is looked at: the outcome is the same
      whatever is on disk. */
  lemma StatusCheckedBeforeRead(taskText: string, status: string, filePath: string, vault: string,
                                paths: Paths, fs: string -> FileView, fs': string -> FileView)
    requires !IsBlank(taskText) && !IsBlank(filePath) && status !in ValidStatuses
    ensures MarkTaskOutcome(taskText, status, filePath, vault, paths, fs) == Err(InvalidStatus)
    ensures MarkTaskOutcome(taskText, status, filePath, vault, paths, fs') == Err(InvalidStatus)
  {
  }

  /** The text must be a whole trailing token: "Call Met" does not match "- [ ] Call MetEd". */
  lemma PrefixOfWordNotMatched()
    ensures !IsMatch("- [ ] Call MetEd", "Call Met")
  {
    var a, t := "- [ ] Call MetEd", "Call Met";
    assert a[6..14] == t && a[14] == 'E';
    assert TailLen(a, t, 6).None?;
    NoMatchAfterOneSpace(a, t, 2);
    forall q | 0 <= q < |a| ensures MatchLen(a, t, q).None? {
      if q != 2 {
        assert a[q] != '[';
      }
    }
  }

  /** Whitespace after the text ends the token: "Call Met" matches "[ ] Call Met today". */
  lemma WordFollowedBySpaceMatched()
    ensures IsMatch("[ ] Call Met today", "Call Met")
  {
    var b, t := "[ ] Call Met today", "Call Met";
    assert b[4..12] == t && b[12] == ' ';
    MatchAfterOneSpace(b, t, 0);
  }

  /** "Call MetEd" matches "- [ ] Call MetEd" at the marker, over the rest of the line. */
  lemma FullTextMatched()
    ensures MatchLen("- [ ] Call MetEd", "Call MetEd", 2) == Some(14)
  {
    var a, t := "- [ ] Call MetEd", "Call MetEd";
    assert a[6..16] == t;
    MatchAfterOneSpace(a, t, 2);
  }

  /** Marking "- [ ] Call MetEd" completed with its full text gives "- [x] Call MetEd". */
  lemma CompletedExample()
    ensures IsMatch("- [ ] Call MetEd", "Call MetEd")
    ensures MarkedLine("- [ ] Call MetEd", "Call MetEd", CheckboxChar("Completed")) == "- [x] Call MetEd"
  {
    var a, t := "- [ ] Call MetEd", "Call MetEd";
    FullTextMatched();
    assert MatchStarts(a, t, 16) == {};
    assert MatchStarts(a, t, 2) == {2};
    assert MatchStarts(a, t, 0) == {2};
    RewriteByStarts(a, t, 'x', {2}, "- [x] Call MetEd");
    assert CheckboxChar("Completed") == 'x';
  }
}
