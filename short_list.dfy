/** Insertion of an open task into the "Short List" section of a daily note: the section is
    located, the run of task lines that follows it is delimited, and the new task either
    takes the first empty placeholder of that run or is inserted right after its last line. */
module ShortList {
  import opened Common
  import opened Text
  import opened PathGuard
  import opened Dates

  // ---------------------------------------------------------------------------
  // Line classes

  /** The section header: any line containing "Short List", in any letter case. */
  predicate HasShortList(line: string) {
    ContainsIgnoreCase(line, "Short List")
  }

  /** The anchored pattern `^-\s+\[\s*\]\s*$`, read left to right; every whitespace run is
      followed by a fixed non-whitespace character or the end, so each run is maximal. */
  predicate SlotShape(s: string) {
    |s| >= 1 && s[0] == '-' &&
    var w1 := WhiteRun(s, 1);
    w1 >= 1 && 1 + w1 < |s| && s[1 + w1] == '[' &&
    var p := 2 + w1;
    var w2 := WhiteRun(s, p);
    p + w2 < |s| && s[p + w2] == ']' &&
    var q := p + w2 + 1;
    q + WhiteRun(s, q) == |s|
  }

  ghost predicate AllWhite(s: string, lo: nat, hi: nat)
    requires lo <= hi <= |s|
  {
    forall k :: lo <= k < hi ==> IsWhite(s[k])
  }

  /** Reference reading of the empty-slot pattern: '-' first, '[' at `i` and ']' at `j`, and
      only whitespace (at least one character of it before '[') everywhere else. */
  ghost predicate SlotAt(s: string, i: nat, j: nat) {
    2 <= i < j < |s| && s[0] == '-' && s[i] == '[' && s[j] == ']' &&
    AllWhite(s, 1, i) && AllWhite(s, i + 1, j) && AllWhite(s, j + 1, |s|)
  }

  lemma SlotShapeIff(s: string)
    ensures SlotShape(s) <==> exists i, j :: SlotAt(s, i, j)
  {
    if SlotShape(s) {
      SlotShapeSound(s);
    }
    if exists i, j :: SlotAt(s, i, j) {
      var i: nat, j: nat :| SlotAt(s, i, j);
      SlotShapeComplete(s, i, j);
    }
  }

  lemma SlotShapeSound(s: string)
    requires SlotShape(s)
    ensures SlotAt(s, 1 + WhiteRun(s, 1), 2 + WhiteRun(s, 1) + WhiteRun(s, 2 + WhiteRun(s, 1)))
  {
  }

  lemma SlotShapeComplete(s: string, i: nat, j: nat)
    requires SlotAt(s, i, j)
    ensures SlotShape(s)
  {
    WhiteRunUpTo(s, 1, i);
    WhiteRunUpTo(s, i + 1, j);
    WhiteRunUpTo(s, j + 1, |s|);
    SlotShapeOfRuns(s, i, j);
  }

  lemma SlotShapeOfRuns(s: string, i: nat, j: nat)
    requires 2 <= i < j < |s| && s[0] == '-' && s[i] == '[' && s[j] == ']'
    requires WhiteRun(s, 1) == i - 1 && WhiteRun(s, i + 1) == j - i - 1 && WhiteRun(s, j + 1) == |s| - j - 1
    ensures SlotShape(s)
  {
  }

  /** A prefix that ends in a non-whitespace character survives `TrimEnd`. */
  lemma PrefixSurvivesTrimEnd(t: string, p: string)
    requires p != [] && !IsWhite(p[|p| - 1])
    ensures StartsWith(TrimEnd(t), p) <==> StartsWith(t, p)
  {
    TrimEndSpec(t);
    var r := TrimEnd(t);
    if StartsWith(t, p) {
      assert t[|p| - 1] == p[|p| - 1];
      assert |p| <= |r|;
      assert r[..|p|] == t[..|p|];
    }
    if StartsWith(r, p) {
      assert t[..|p|] == r[..|p|];
    }
  }

  /** Trailing whitespace never changes the empty-slot reading: it is absorbed by the final `\s*`. */
  lemma SlotSurvivesTrimEnd(t: string)
    ensures SlotShape(TrimEnd(t)) <==> SlotShape(t)
  {
    TrimEndSpec(t);
    var r := TrimEnd(t);
    SlotShapeIff(t);
    SlotShapeIff(r);
    if SlotShape(t) {
      var i: nat, j: nat :| SlotAt(t, i, j);
      assert t[j] == ']';
      assert j < |r|;
      assert SlotAt(r, i, j);
    }
    if SlotShape(r) {
      var i: nat, j: nat :| SlotAt(r, i, j);
      assert SlotAt(t, i, j);
    }
  }

  /** How the section scan reads a line: a heading of depth four or more, a task line (and
      whether it is an empty placeholder), or anything else, blank lines included. */
  datatype LineKind = Heading | Task(empty: bool) | Other

  /** The class of a line, read on its text without leading whitespace (`TrimmedClasses`
      shows that trailing whitespace never changes it). */
  function KindOf(line: string): LineKind {
    var t := TrimStart(line);
    if StartsWith(t, "####") then Heading
    else if StartsWith(t, "- [") then Task(SlotShape(t))
    else Other
  }

  /** The class of every line of a note. */
  function Classify(lines: seq<string>): (kinds: seq<LineKind>)
    ensures |kinds| == |lines|
  {
    seq(|lines|, k requires 0 <= k < |lines| => KindOf(lines[k]))
  }

  /** The tests `AddTaskToDaily` makes on `Trim(line)`, in the order it makes them, agree with
      `KindOf`. */
  lemma TrimmedClasses(line: string)
    ensures StartsWith(Trim(line), "####") <==> KindOf(line) == Heading
    ensures !StartsWith(Trim(line), "####") ==>
      (StartsWith(Trim(line), "- [") <==> KindOf(line).Task?)
    ensures KindOf(line).Task? ==> (SlotShape(Trim(line)) <==> KindOf(line).empty)
  {
    PrefixSurvivesTrimEnd(TrimStart(line), "####");
    PrefixSurvivesTrimEnd(TrimStart(line), "- [");
    SlotSurvivesTrimEnd(TrimStart(line));
  }

  /** The placeholder a daily note template leaves in its list is an empty slot. */
  lemma PlaceholderIsEmptySlot()
    ensures KindOf("- [ ] ") == Task(true)
  {
    var a := "- [ ] ";
    assert WhiteRun(a, 0) == 0;
    assert TrimStart(a) == a;
    assert a[..3] == "- [";
    SlotShapeComplete(a, 2, 4);
  }

  /** A new task line is a task line but not an empty slot, whatever non-blank text it holds. */
  lemma FilledSlotIsTask(text: string)
    requires !IsBlank(text)
    ensures KindOf(NewTask(text)) == Task(false)
  {
    var b := "- [ ] " + text;
    assert b[0] == '-' && b[1] == ' ' && b[2] == '[' && b[3] == ' ' && b[4] == ']' && b[5] == ' ';
    assert WhiteRun(b, 0) == 0;
    assert TrimStart(b) == b;
    assert b[..3] == "- [";
    var k :| 0 <= k < |text| && !IsWhite(text[k]);
    assert b[6 + k] == text[k];
    assert !AllWhite(b, 5, |b|);
    assert WhiteRun(b, 2) == 0 && WhiteRun(b, 1) == 1;
    assert WhiteRun(b, 4) == 0 && WhiteRun(b, 3) == 1;
  }

  // ---------------------------------------------------------------------------
  // Where the new task goes

  /** The three tests the section scan makes on a line class: a heading or a task line, a
      line that is not a task line, an empty slot. */
  datatype Probe = NotOther | NotTask | EmptySlot

  predicate Holds(probe: Probe, k: LineKind) {
    match probe
    case NotOther => !k.Other?
    case NotTask => !k.Task?
    case EmptySlot => k == Task(true)
  }

  /** The first index in `[lo, hi)` whose class passes `probe`, or `hi`. */
  function FirstIn(kinds: seq<LineKind>, lo: nat, hi: nat, probe: Probe): (r: nat)
    requires lo <= hi <= |kinds|
    ensures lo <= r <= hi
    ensures forall k :: lo <= k < r ==> !Holds(probe, kinds[k])
    ensures r < hi ==> Holds(probe, kinds[r])
    decreases hi - lo
  {
    if lo == hi then hi else if Holds(probe, kinds[lo]) then lo else FirstIn(kinds, lo + 1, hi, probe)
  }

  /** Any index with the defining properties of the first match is that first match. */
  lemma FirstInIs(kinds: seq<LineKind>, lo: nat, hi: nat, probe: Probe, r: nat)
    requires lo <= r <= hi <= |kinds|
    requires forall k :: lo <= k < r ==> !Holds(probe, kinds[k])
    requires r < hi ==> Holds(probe, kinds[r])
    ensures FirstIn(kinds, lo, hi, probe) == r
  {
  }

  /** Overwrite the line at `index`, or insert a new line before `index`. */
  datatype Plan = FillSlot(index: nat) | InsertAt(index: nat)

  /** Index of the section header: the first line from `i` on that contains "Short List", or
      the number of lines. */
  function HeaderFrom(lines: seq<string>, i: nat): (h: nat)
    requires i <= |lines|
    ensures i <= h <= |lines|
    ensures forall k :: i <= k < h ==> !HasShortList(lines[k])
    ensures h < |lines| ==> HasShortList(lines[h])
    decreases |lines| - i
  {
    if i == |lines| then i else if HasShortList(lines[i]) then i else HeaderFrom(lines, i + 1)
  }

  function HeaderIndex(lines: seq<string>): (h: nat)
    ensures h <= |lines|
  {
    HeaderFrom(lines, 0)
  }

  /** The section read as runs of lines after the header `h`: lines that are neither headings
      nor tasks up to the first task `a`; the tasks from `a` up to the first non-task `b`; the
      new task goes into the first empty slot in `[a, b)`, or before `b`. A heading at `a` or
      at `b` makes the section malformed. */
  function PlanOn(kinds: seq<LineKind>, h: nat): Result<Plan>
    requires h < |kinds|
  {
    var n := |kinds|;
    var a := FirstIn(kinds, h + 1, n, NotOther);
    if a == n then Err(NoTasksInSection)
    else if kinds[a] == Heading then Err(MalformedSection)
    else
      var b := FirstIn(kinds, a + 1, n, NotTask);
      if b < n && kinds[b] == Heading then Err(MalformedSection)
      else
        var e := FirstIn(kinds, a, b, EmptySlot);
        if e < b then Ok(FillSlot(e)) else Ok(InsertAt(b))
  }

  /** Where the new task goes in a note, or why it cannot be added. */
  function PlanFor(lines: seq<string>): (r: Result<Plan>)
    ensures r.Ok? && r.value.FillSlot? ==> r.value.index < |lines|
    ensures r.Ok? && r.value.InsertAt? ==> r.value.index <= |lines|
  {
    var h := HeaderIndex(lines);
    if h == |lines| then Err(SectionNotFound) else PlanOn(Classify(lines), h)
  }

  function NewTask(taskText: string): string {
    "- [ ] " + taskText
  }

  /** The plan carried out on the lines. */
  function Apply(lines: seq<string>, plan: Plan, taskText: string): seq<string>
    requires plan.FillSlot? ==> plan.index < |lines|
    requires plan.InsertAt? ==> plan.index <= |lines|
  {
    match plan
    case FillSlot(e) => lines[e := NewTask(taskText)]
    case InsertAt(b) => lines[..b] + [NewTask(taskText)] + lines[b..]
  }

  /** The lines after the edit, or why there is none. */
  function EditLines(lines: seq<string>, taskText: string): Result<seq<string>> {
    var plan :- PlanFor(lines);
    Ok(Apply(lines, plan, taskText))
  }

  /** Filling a slot changes that one line and nothing else; inserting adds one line, and
      removing it again gives back the original lines in their order. */
  lemma ApplyShape(lines: seq<string>, plan: Plan, taskText: string)
    requires plan.FillSlot? ==> plan.index < |lines|
    requires plan.InsertAt? ==> plan.index <= |lines|
    ensures var r := Apply(lines, plan, taskText);
      r[plan.index] == NewTask(taskText) &&
      (plan.FillSlot? ==> |r| == |lines| && forall k :: 0 <= k < |lines| && k != plan.index ==> r[k] == lines[k]) &&
      (plan.InsertAt? ==> |r| == |lines| + 1 && r[..plan.index] + r[plan.index + 1..] == lines)
  {
    if plan.InsertAt? {
      var b := plan.index;
      var r := Apply(lines, plan, taskText);
      assert r[..b] == lines[..b] && r[b + 1..] == lines[b..];
      assert lines == lines[..b] + lines[b..];
    }
  }

  // ---------------------------------------------------------------------------
  // The scan as the service performs it

  /** The header search of `AddTaskToDaily`: the first line containing "Short List". */
  method FindHeader(lines: seq<string>) returns (shortListIndex: int)
    ensures shortListIndex == -1 <==> HeaderIndex(lines) == |lines|
    ensures shortListIndex != -1 ==> shortListIndex == HeaderIndex(lines)
  {
    shortListIndex := -1;
    for i := 0 to |lines|
      invariant shortListIndex == -1
      invariant forall k :: 0 <= k < i ==> !HasShortList(lines[k])
    {
      if HasShortList(lines[i]) {
        return i;
      }
    }
  }

  /** The section pass of `AddTaskToDaily` over the classes of the note's lines: one walk from
      the line after the header that tracks the last task line and the first empty slot, fails
      on a heading, and stops at the first non-task line once a task has been seen (blank and
      other lines are treated alike). */
  method ScanSection(kinds: seq<LineKind>, h: nat) returns (r: Result<Plan>)
    requires h < |kinds|
    ensures r == PlanOn(kinds, h)
  {
    ghost var a := FirstIn(kinds, h + 1, |kinds|, NotOther);
    var taskListEndIndex := -1;
    var firstEmptyTaskIndex := -1;
    for i := h + 1 to |kinds|
      invariant taskListEndIndex == -1 ==> i <= a && firstEmptyTaskIndex == -1
      invariant taskListEndIndex != -1 ==>
        a <= taskListEndIndex == i - 1 && kinds[a] != Heading &&
        forall k :: a <= k < i ==> kinds[k].Task?
      invariant firstEmptyTaskIndex == -1 ==> forall k :: a <= k < i ==> !Holds(EmptySlot, kinds[k])
      invariant firstEmptyTaskIndex != -1 ==>
        a <= firstEmptyTaskIndex < i && Holds(EmptySlot, kinds[firstEmptyTaskIndex]) &&
        forall k :: a <= k < firstEmptyTaskIndex ==> !Holds(EmptySlot, kinds[k])
    {
      var kind := kinds[i];
      if kind == Heading {
        if taskListEndIndex != -1 {
          FirstInIs(kinds, a + 1, |kinds|, NotTask, i);
        }
        return Err(MalformedSection);
      }
      if kind.Task? {
        if kind.empty && firstEmptyTaskIndex == -1 {
          firstEmptyTaskIndex := i;
        }
        taskListEndIndex := i;
      } else if taskListEndIndex != -1 {
        break;
      }
    }
    if taskListEndIndex == -1 {
      return Err(NoTasksInSection);
    }
    ScanEnd(kinds, h, taskListEndIndex, firstEmptyTaskIndex);
    if firstEmptyTaskIndex != -1 {
      r := Ok(FillSlot(firstEmptyTaskIndex));
    } else {
      r := Ok(InsertAt(taskListEndIndex + 1));
    }
  }

  /** Where the section pass stops with a task run `[a, last]` behind it: the plan for the
      first empty slot of the run if there is one, else for the line after `last`. */
  lemma ScanEnd(kinds: seq<LineKind>, h: nat, last: int, empty: int)
    requires h < |kinds|
    requires var a := FirstIn(kinds, h + 1, |kinds|, NotOther);
      a <= last < |kinds| && kinds[a] != Heading &&
      (forall k :: a <= k <= last ==> kinds[k].Task?) &&
      (last + 1 < |kinds| ==> kinds[last + 1] == Other) &&
      (empty == -1 ==> forall k :: a <= k <= last ==> !Holds(EmptySlot, kinds[k])) &&
      (empty != -1 ==>
        a <= empty <= last && Holds(EmptySlot, kinds[empty]) &&
        forall k :: a <= k < empty ==> !Holds(EmptySlot, kinds[k]))
    ensures PlanOn(kinds, h) == if empty != -1 then Ok(FillSlot(empty)) else Ok(InsertAt(last + 1))
  {
    var a := FirstIn(kinds, h + 1, |kinds|, NotOther);
    FirstInIs(kinds, a + 1, |kinds|, NotTask, last + 1);
    if empty != -1 {
      FirstInIs(kinds, a, last + 1, EmptySlot, empty);
    } else {
      FirstInIs(kinds, a, last + 1, EmptySlot, last + 1);
    }
  }

  /** Lines 388 to 454 of `AddTaskToDaily`: find the header, scan the section, then overwrite
      the empty slot in place or insert the new line after the last task. */
  method EditShortList(lines: seq<string>, taskText: string) returns (r: Result<seq<string>>)
    ensures r == EditLines(lines, taskText)
  {
    var shortListIndex := FindHeader(lines);
    if shortListIndex == -1 {
      return Err(SectionNotFound);
    }
    var plan := ScanSection(Classify(lines), shortListIndex);
    if plan.Err? {
      return Err(plan.error);
    }
    var newLine := "- [ ] " + taskText;
    var edited := lines;
    match plan.value {
      case FillSlot(e) =>
        edited := edited[e := newLine];
      case InsertAt(b) =>
        edited := edited[..b] + [newLine] + edited[b..];
    }
    r := Ok(edited);
  }

  // ---------------------------------------------------------------------------
  // What the plan means

  /** `[a, b)` is the section's task run: after the header `h` only other lines up to `a`,
      task lines from `a` up to `b`, and `b` is the end of the note or a line that is neither a
      task nor a heading. */
  ghost predicate TaskRun(kinds: seq<LineKind>, h: nat, a: nat, b: nat) {
    h < a < b <= |kinds| &&
    (forall k :: h < k < a ==> kinds[k] == Other) &&
    (forall k :: a <= k < b ==> kinds[k].Task?) &&
    (b == |kinds| || kinds[b] == Other)
  }

  /** The scan that starts after the header `h` gets as far as line `j`: no heading before it,
      and no blank or other line before it that follows a task line. */
  ghost predicate Reaches(kinds: seq<LineKind>, h: nat, j: nat) {
    h < j < |kinds| &&
    forall k :: h < k < j ==>
      kinds[k] != Heading && (kinds[k] == Other ==> forall m :: h < m < k ==> !kinds[m].Task?)
  }

  /** A task run is the one the plan finds. */
  lemma TaskRunFound(kinds: seq<LineKind>, h: nat, a: nat, b: nat)
    requires TaskRun(kinds, h, a, b)
    ensures a == FirstIn(kinds, h + 1, |kinds|, NotOther)
    ensures b == FirstIn(kinds, a + 1, |kinds|, NotTask)
  {
    FirstInIs(kinds, h + 1, |kinds|, NotOther, a);
    FirstInIs(kinds, a + 1, |kinds|, NotTask, b);
  }

  /** The plan succeeds exactly when the header is followed by a well-formed task run. */
  lemma PlanOkIff(kinds: seq<LineKind>, h: nat)
    requires h < |kinds|
    ensures PlanOn(kinds, h).Ok? <==> exists a: nat, b: nat :: TaskRun(kinds, h, a, b)
  {
    if PlanOn(kinds, h).Ok? {
      var a := FirstIn(kinds, h + 1, |kinds|, NotOther);
      var b := FirstIn(kinds, a + 1, |kinds|, NotTask);
      assert TaskRun(kinds, h, a, b);
    }
    if exists a: nat, b: nat :: TaskRun(kinds, h, a, b) {
      var a: nat, b: nat :| TaskRun(kinds, h, a, b);
      TaskRunFound(kinds, h, a, b);
    }
  }

  /** An empty slot is filled exactly when it lies in the task run and no empty slot comes
      before it there. */
  lemma FillSlotIff(kinds: seq<LineKind>, h: nat, e: nat)
    requires h < |kinds|
    ensures PlanOn(kinds, h) == Ok(FillSlot(e)) <==>
      exists a: nat, b: nat :: TaskRun(kinds, h, a, b) && a <= e < b && kinds[e] == Task(true) &&
        forall k :: a <= k < e ==> kinds[k] != Task(true)
  {
    if PlanOn(kinds, h) == Ok(FillSlot(e)) {
      FilledSlotInRun(kinds, h, e);
    }
    if exists a: nat, b: nat :: TaskRun(kinds, h, a, b) && a <= e < b && kinds[e] == Task(true) &&
        forall k :: a <= k < e ==> kinds[k] != Task(true) {
      var a: nat, b: nat :| TaskRun(kinds, h, a, b) && a <= e < b && kinds[e] == Task(true) &&
        forall k :: a <= k < e ==> kinds[k] != Task(true);
      RunSlotFilled(kinds, h, a, b, e);
    }
  }

  lemma RunSlotFilled(kinds: seq<LineKind>, h: nat, a: nat, b: nat, e: nat)
    requires TaskRun(kinds, h, a, b) && a <= e < b && kinds[e] == Task(true)
    requires forall k :: a <= k < e ==> kinds[k] != Task(true)
    ensures PlanOn(kinds, h) == Ok(FillSlot(e))
  {
    TaskRunFound(kinds, h, a, b);
    FirstInIs(kinds, a, b, EmptySlot, e);
  }

  lemma FilledSlotInRun(kinds: seq<LineKind>, h: nat, e: nat)
    requires h < |kinds| && PlanOn(kinds, h) == Ok(FillSlot(e))
    ensures var a := FirstIn(kinds, h + 1, |kinds|, NotOther);
      var b := FirstIn(kinds, a + 1, |kinds|, NotTask);
      TaskRun(kinds, h, a, b) && a <= e < b && kinds[e] == Task(true) &&
      forall k :: a <= k < e ==> kinds[k] != Task(true)
  {
  }

  /** A line is inserted before `b` exactly when `b` ends a task run that has no empty slot:
      the new task goes right after the last task line of the run. */
  lemma InsertAtIff(kinds: seq<LineKind>, h: nat, b: nat)
    requires h < |kinds|
    ensures PlanOn(kinds, h) == Ok(InsertAt(b)) <==>
      exists a: nat :: TaskRun(kinds, h, a, b) && forall k :: a <= k < b ==> kinds[k] == Task(false)
  {
    if PlanOn(kinds, h) == Ok(InsertAt(b)) {
      var a := FirstIn(kinds, h + 1, |kinds|, NotOther);
      assert TaskRun(kinds, h, a, b);
      forall k | a <= k < b ensures kinds[k] == Task(false) {
        assert !Holds(EmptySlot, kinds[k]);
      }
    }
    if exists a: nat :: TaskRun(kinds, h, a, b) && forall k :: a <= k < b ==> kinds[k] == Task(false) {
      var a: nat :| TaskRun(kinds, h, a, b) && forall k :: a <= k < b ==> kinds[k] == Task(false);
      TaskRunFound(kinds, h, a, b);
      FirstInIs(kinds, a, b, EmptySlot, b);
    }
  }

  /** "No tasks found" exactly when nothing after the header is a task line or a heading. */
  lemma NoTasksIff(kinds: seq<LineKind>, h: nat)
    requires h < |kinds|
    ensures PlanOn(kinds, h) == Err(NoTasksInSection) <==>
      forall k :: h < k < |kinds| ==> kinds[k] == Other
  {
  }

  /** "Malformed" exactly when the scan reaches a heading. */
  lemma MalformedIff(kinds: seq<LineKind>, h: nat)
    requires h < |kinds|
    ensures PlanOn(kinds, h) == Err(MalformedSection) <==>
      exists j: nat :: Reaches(kinds, h, j) && kinds[j] == Heading
  {
    if PlanOn(kinds, h) == Err(MalformedSection) {
      var j := MalformedReachesHeading(kinds, h);
    }
    if exists j: nat :: Reaches(kinds, h, j) && kinds[j] == Heading {
      var j: nat :| Reaches(kinds, h, j) && kinds[j] == Heading;
      ReachedHeadingMalformed(kinds, h, j);
    }
  }

  lemma MalformedReachesHeading(kinds: seq<LineKind>, h: nat) returns (j: nat)
    requires h < |kinds| && PlanOn(kinds, h) == Err(MalformedSection)
    ensures Reaches(kinds, h, j) && kinds[j] == Heading
  {
    var n := |kinds|;
    var a := FirstIn(kinds, h + 1, n, NotOther);
    if kinds[a] == Heading {
      j := a;
    } else {
      var b := FirstIn(kinds, a + 1, n, NotTask);
      forall k | h < k < b
        ensures kinds[k] != Heading && (kinds[k] == Other ==> forall m :: h < m < k ==> !kinds[m].Task?)
      {
        if k > a { assert !Holds(NotTask, kinds[k]); }
      }
      j := b;
    }
  }

  lemma ReachedHeadingMalformed(kinds: seq<LineKind>, h: nat, j: nat)
    requires Reaches(kinds, h, j) && kinds[j] == Heading
    ensures PlanOn(kinds, h) == Err(MalformedSection)
  {
    var n := |kinds|;
    var a := FirstIn(kinds, h + 1, n, NotOther);
    assert a <= j;
    if a < j {
      assert kinds[a].Task?;
      forall k | a < k < j ensures kinds[k].Task? {
        assert h < a < k;
      }
      FirstInIs(kinds, a + 1, n, NotTask, j);
    }
  }

  /** "Section not found" exactly when no line contains "Short List". */
  lemma SectionNotFoundIff(lines: seq<string>)
    ensures PlanFor(lines) == Err(SectionNotFound) <==>
      forall k :: 0 <= k < |lines| ==> !HasShortList(lines[k])
  {
  }

  /** A successful edit either overwrites one empty slot below the header, changing nothing
      else, or inserts one line right after a task line, keeping every other line in order. */
  lemma EditChangesOneLine(lines: seq<string>, taskText: string)
    requires EditLines(lines, taskText).Ok?
    ensures var r := EditLines(lines, taskText).value;
      (|r| == |lines| &&
        exists e :: (HeaderIndex(lines) < e < |lines| && Classify(lines)[e] == Task(true) && r[e] == NewTask(taskText) &&
          forall k :: 0 <= k < |lines| && k != e ==> r[k] == lines[k]))
      ||
      (|r| == |lines| + 1 &&
        exists b :: (HeaderIndex(lines) < b - 1 < |lines| && Classify(lines)[b - 1].Task? && r[b] == NewTask(taskText) &&
          r[..b] + r[b + 1..] == lines))
  {
    var plan := PlanFor(lines).value;
    var h := HeaderIndex(lines);
    var kinds := Classify(lines);
    ApplyShape(lines, plan, taskText);
    match plan
    case FillSlot(e) =>
      FillSlotIff(kinds, h, e);
    case InsertAt(b) =>
      InsertAtIff(kinds, h, b);
      var a: nat :| TaskRun(kinds, h, a, b) && forall k :: a <= k < b ==> kinds[k] == Task(false);
      assert kinds[b - 1].Task?;
  }

  // ---------------------------------------------------------------------------
  // The operation

  /** The outcome of `AddTaskToDaily`: the checks in order (blank task text, blank date, a
      token that names no date, no daily note for that date, a note outside the vault), then
      the section edit; the note is written back only when the edit succeeds. */
  function AddTaskOutcome(taskText: string, date: string, today: Date, vault: string,
                          paths: Paths, fs: string -> FileView): Result<Written>
    requires Valid(today)
  {
    if IsBlank(taskText) then Err(BlankTaskText)
    else if IsBlank(date) then Err(BlankDate)
    else
      var d :- Resolve(date, today);
      var file := fs(DailyPath(d, vault, paths));
      if !file.present then Err(DailyNotFound)
      else if !InVault(file.fullName, vault) then Err(OutsideVault)
      else
        var edited :- EditLines(Split(file.content, '\n'), taskText);
        Ok(Written(file.fullName, Join(edited, '\n')))
  }

  /** `AddTaskToDaily`; `today` stands for the current date, `paths` for the path library and
      `fs` for what `FileInfo` finds at a path. */
  method AddTaskToDaily(taskText: string, date: string, today: Date, vault: string,
                        paths: Paths, fs: string -> FileView) returns (r: Result<Written>)
    requires Valid(today)
    ensures r == AddTaskOutcome(taskText, date, today, vault, paths, fs)
  {
    if IsBlank(taskText) {
      return Err(BlankTaskText);
    }
    if IsBlank(date) {
      return Err(BlankDate);
    }
    var targetDate := Resolve(date, today);
    if targetDate.Err? {
      return Err(targetDate.error);
    }
    var filePath := paths.combine(paths.combine(vault, "dailies"), Format(targetDate.value) + ".md");
    var file := fs(filePath);
    if !file.present {
      return Err(DailyNotFound);
    }
    if !InVault(file.fullName, vault) {
      return Err(OutsideVault);
    }
    var lines := Split(file.content, '\n');
    var edited := EditShortList(lines, taskText);
    if edited.Err? {
      return Err(edited.error);
    }
    r := Ok(Written(file.fullName, Join(edited.value, '\n')));
  }

  /** When the task text has no line break, the written note splits back into exactly the
      edited lines: one more line than before, or the same number with one slot filled. */
  lemma WrittenLines(taskText: string, date: string, today: Date, vault: string,
                     paths: Paths, fs: string -> FileView)
    requires Valid(today) && '\n' !in taskText
    requires AddTaskOutcome(taskText, date, today, vault, paths, fs).Ok?
    ensures var lines := Split(fs(DailyPath(Resolve(date, today).value, vault, paths)).content, '\n');
      EditLines(lines, taskText).Ok? &&
      Split(AddTaskOutcome(taskText, date, today, vault, paths, fs).value.content, '\n') ==
        EditLines(lines, taskText).value
  {
    var lines := Split(fs(DailyPath(Resolve(date, today).value, vault, paths)).content, '\n');
    var plan := PlanFor(lines).value;
    ApplyKeepsLinesWhole(lines, plan, taskText);
    SplitJoin(Apply(lines, plan, taskText), '\n');
  }

  /** Carrying out a plan on lines without a line break, with a task text without one, gives
      lines without a line break. */
  lemma ApplyKeepsLinesWhole(lines: seq<string>, plan: Plan, taskText: string)
    requires plan.FillSlot? ==> plan.index < |lines|
    requires plan.InsertAt? ==> plan.index <= |lines|
    requires '\n' !in taskText && forall i :: 0 <= i < |lines| ==> '\n' !in lines[i]
    ensures var edited := Apply(lines, plan, taskText);
      |edited| >= 1 && forall i :: 0 <= i < |edited| ==> '\n' !in edited[i]
  {
    var edited := Apply(lines, plan, taskText);
    ApplyShape(lines, plan, taskText);
    assert '\n' !in NewTask(taskText);
    forall i | 0 <= i < |edited| ensures '\n' !in edited[i] {
      match plan
      case FillSlot(e) =>
      case InsertAt(b) =>
        if i < b { assert edited[i] == lines[i]; }
        else if i > b { assert edited[i] == lines[i - 1]; }
    }
  }

  // ---------------------------------------------------------------------------
  // Scenarios

  lemma HeaderLine()
    ensures HasShortList("## Short List")
  {
    var s := "## Short List";
    assert s[3..][..10] == "Short List";
    assert StartsWithIgnoreCase(s[3..], "Short List");
  }

  lemma BlankIsOther()
    ensures KindOf("") == Other
  {
  }

  lemma HeadingLine()
    ensures KindOf("#### Notes") == Heading
  {
    assert WhiteRun("#### Notes", 0) == 0;
  }

  /** A fresh daily note: the header, the template's empty placeholder (`PlaceholderIsEmptySlot`)
      and a blank line. The placeholder is taken over by the new task; no line is added. */
  lemma FillPlaceholderScenario(header: string, slot: string, blank: string, taskText: string)
    requires HasShortList(header) && KindOf(slot) == Task(true) && KindOf(blank) == Other
    ensures EditLines([header, slot, blank], taskText) == Ok([header, NewTask(taskText), blank])
  {
    var lines := [header, slot, blank];
    var kinds := Classify(lines);
    assert HeaderIndex(lines) == 0;
    assert kinds[1] == Task(true) && kinds[2] == Other;
    assert FirstIn(kinds, 1, 3, NotOther) == 1;
    assert FirstIn(kinds, 2, 3, NotTask) == 2;
    assert FirstIn(kinds, 1, 2, EmptySlot) == 1;
    assert lines[1 := NewTask(taskText)] == [header, NewTask(taskText), blank];
  }

  /** With the slot already taken (`FilledSlotIsTask`), the new task is inserted right after
      it, before the blank line that closes the list. */
  lemma AppendAfterLastTaskScenario(header: string, task: string, blank: string, taskText: string)
    requires HasShortList(header) && KindOf(task) == Task(false) && KindOf(blank) == Other
    ensures EditLines([header, task, blank], taskText) == Ok([header, task, NewTask(taskText), blank])
  {
    var lines := [header, task, blank];
    var kinds := Classify(lines);
    assert HeaderIndex(lines) == 0;
    assert kinds[1] == Task(false) && kinds[2] == Other;
    assert FirstIn(kinds, 1, 3, NotOther) == 1;
    assert FirstIn(kinds, 2, 3, NotTask) == 2;
    assert FirstIn(kinds, 1, 2, EmptySlot) == 2;
    assert lines[..2] + [NewTask(taskText)] + lines[2..] == [header, task, NewTask(taskText), blank];
  }

  /** A heading (`HeadingLine`) straight after the task list, with no blank line between, is
      refused. */
  lemma HeadingWithoutSeparatorScenario(header: string, task: string, heading: string, taskText: string)
    requires HasShortList(header) && KindOf(task).Task? && KindOf(heading) == Heading
    ensures EditLines([header, task, heading], taskText) == Err(MalformedSection)
  {
    var lines := [header, task, heading];
    var kinds := Classify(lines);
    assert HeaderIndex(lines) == 0;
    assert kinds[1].Task? && kinds[2] == Heading;
    assert FirstIn(kinds, 1, 3, NotOther) == 1;
    assert FirstIn(kinds, 2, 3, NotTask) == 2;
  }
}
