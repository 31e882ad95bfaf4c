/** The note operations around the editors: reading a note by path, reading the daily note for a
    date token, and creating a note with optional tags in an optional folder. The host services
    the source calls (path canonicalisation and combination, directory creation, existence tests,
    writing, the platform line terminator) are parameters. */
module NoteStore {
  import opened Common
  import opened Text
  import opened PathGuard
  import opened Dates
  import TaskMatcher
  import ShortList

  // ---------------------------------------------------------------------------
  // Reading

  /** The outcome of `ReadNote`: blank path, missing file, file outside the vault, else its text.
      The path goes to `FileInfo` as given, so a relative one names a file under the process's
      working directory; `fs` stands for that lookup. */
  function ReadNoteOutcome(path: string, vault: string, fs: string -> FileView): (r: Result<string>)
    ensures r.Ok? <==> !IsBlank(path) && fs(path).present && InVault(fs(path).fullName, vault)
    ensures r.Ok? ==> r.value == fs(path).content
  {
    if IsBlank(path) then Err(BlankPath)
    else
      var file := fs(path);
      if !file.present then Err(FileNotFound)
      else if !InVault(file.fullName, vault) then Err(OutsideVault)
      else Ok(file.content)
  }

  /** The outcome of `GetDailyNote`: blank token, a token naming no date, no note for that date,
      a note outside the vault, else the note's text. */
  function DailyNoteOutcome(date: string, today: Date, vault: string, paths: Paths,
                            fs: string -> FileView): (r: Result<string>)
    requires Valid(today)
    ensures r.Ok? <==>
      (!IsBlank(date) && Resolve(date, today).Ok? &&
       var file := fs(DailyPath(Resolve(date, today).value, vault, paths));
       file.present && InVault(file.fullName, vault))
    ensures r.Ok? ==> r.value == fs(DailyPath(Resolve(date, today).value, vault, paths)).content
    ensures IsBlank(date) ==> r == Err(BlankDate)
    ensures !IsBlank(date) && Resolve(date, today).Err? ==> r == Err(Resolve(date, today).error)
    ensures !IsBlank(date) && Resolve(date, today).Ok? ==>
      var file := fs(DailyPath(Resolve(date, today).value, vault, paths));
      (!file.present ==> r == Err(DailyNotFound)) &&
      (file.present && !InVault(file.fullName, vault) ==> r == Err(OutsideVault))
  {
    if IsBlank(date) then Err(BlankDate)
    else
      var d :- Resolve(date, today);
      var file := fs(DailyPath(d, vault, paths));
      if !file.present then Err(DailyNotFound)
      else if !InVault(file.fullName, vault) then Err(OutsideVault)
      else Ok(file.content)
  }

  /** `AddTaskToDaily` repeats the checks of `GetDailyNote`: for a non-blank task, whatever makes
      reading the daily note fail makes adding to it fail the same way. */
  lemma AddTaskFailsLikeRead(taskText: string, date: string, today: Date, vault: string,
                             paths: Paths, fs: string -> FileView)
    requires Valid(today) && !IsBlank(taskText)
    requires DailyNoteOutcome(date, today, vault, paths, fs).Err?
    ensures ShortList.AddTaskOutcome(taskText, date, today, vault, paths, fs) ==
      Err(DailyNoteOutcome(date, today, vault, paths, fs).error)
  {
  }

  /** When a task is added, the note it edits is the one `GetDailyNote` reads, and the lines
      written are that note's lines after the section edit. */
  lemma AddTaskEditsDailyNote(taskText: string, date: string, today: Date, vault: string,
                              paths: Paths, fs: string -> FileView)
    requires Valid(today) && '\n' !in taskText
    requires ShortList.AddTaskOutcome(taskText, date, today, vault, paths, fs).Ok?
    ensures DailyNoteOutcome(date, today, vault, paths, fs).Ok?
    ensures var lines := Split(DailyNoteOutcome(date, today, vault, paths, fs).value, '\n');
      Split(ShortList.AddTaskOutcome(taskText, date, today, vault, paths, fs).value.content, '\n') ==
      ShortList.EditLines(lines, taskText).value
  {
    ShortList.WrittenLines(taskText, date, today, vault, paths, fs);
  }

  /** The file `MarkTask` rewrites is the one `ReadNote` reads when handed the path `MarkTask`
      looked up, which for a rooted path is the path itself; and the rewrite keeps its line
      count. A relative path `ReadNote` looks up under the working directory instead of the
      vault, so for one the two operations may name different files. */
  lemma MarkedFileIsReadable(taskText: string, status: string, filePath: string, vault: string,
                             paths: Paths, fs: string -> FileView)
    requires TaskMatcher.MarkTaskOutcome(taskText, status, filePath, vault, paths, fs).Ok?
    ensures var full := TaskMatcher.MarkPath(filePath, vault, paths);
      !IsBlank(full) ==> ReadNoteOutcome(full, vault, fs) == Ok(fs(full).content)
    ensures paths.isRooted(filePath) ==> ReadNoteOutcome(filePath, vault, fs) == Ok(fs(filePath).content)
    ensures var full := TaskMatcher.MarkPath(filePath, vault, paths);
      |Split(TaskMatcher.MarkTaskOutcome(taskText, status, filePath, vault, paths, fs).value.write.content, '\n')| ==
      |Split(fs(full).content, '\n')|
  {
    var file := fs(TaskMatcher.MarkPath(filePath, vault, paths));
    assert file.present && InVault(file.fullName, vault);
    TaskMatcher.MarkKeepsLines(file.content, taskText, TaskMatcher.CheckboxChar(status));
  }

  // ---------------------------------------------------------------------------
  // Tags and body

  /** A tag as written to the note: with a leading '#' added unless it already has one. */
  function NormalizeTag(t: string): (r: string)
    ensures StartsWith(r, "#")
    ensures |r| >= |t| && r[|r| - |t|..] == t
    ensures StartsWith(t, "#") ==> r == t
    ensures !StartsWith(t, "#") ==> |r| == |t| + 1
  {
    if StartsWith(t, "#") then t else "#" + t
  }

  /** A tag without a leading '#' gets exactly one put in front of it. */
  lemma NormalizeTagAddsHash(t: string)
    requires !StartsWith(t, "#")
    ensures NormalizeTag(t) == "#" + t
  {
  }

  /** Normalising is idempotent. */
  lemma NormalizeTagIdempotent(t: string)
    ensures NormalizeTag(NormalizeTag(t)) == NormalizeTag(t)
  {
  }

  function Normalized(tags: seq<string>): (r: seq<string>)
    ensures |r| == |tags|
  {
    seq(|tags|, i requires 0 <= i < |tags| => NormalizeTag(tags[i]))
  }

  /** The tags line: the normalised tags separated by single spaces. */
  function TagLine(tags: seq<string>): string {
    Join(Normalized(tags), ' ')
  }

  predicate HasTags(tags: Option<seq<string>>) {
    tags.Some? && |tags.value| > 0
  }

  /** The note's text: with tags, the tags line, two line terminators and then the content;
      without tags (none given, or an empty array), the content alone. */
  function RenderBody(tags: Option<seq<string>>, content: string, nl: string): string {
    if HasTags(tags) then TagLine(tags.value) + nl + nl + content else content
  }

  /** The content always survives verbatim at the end of the body, and is all of it without tags. */
  lemma BodyEndsWithContent(tags: Option<seq<string>>, content: string, nl: string)
    ensures var body := RenderBody(tags, content, nl);
      |body| >= |content| && body[|body| - |content|..] == content
    ensures !HasTags(tags) ==> RenderBody(tags, content, nl) == content
  {
  }

  /** With '\n' as the terminator and tags free of spaces and line breaks, the body reads back:
      its first line splits on ' ' into exactly the normalised tags, each starting with '#', the
      second line is empty, and the remaining lines are the content's lines. */
  lemma {:induction false} BodyReadsBack(tags: seq<string>, content: string)
    requires |tags| > 0
    requires forall i :: 0 <= i < |tags| ==> ' ' !in tags[i] && '\n' !in tags[i]
    ensures var lines := Split(RenderBody(Some(tags), content, "\n"), '\n');
      |lines| >= 2 && lines[1] == "" && lines[2..] == Split(content, '\n') &&
      Split(lines[0], ' ') == Normalized(tags) &&
      forall i :: 0 <= i < |tags| ==> StartsWith(Split(lines[0], ' ')[i], "#")
  {
    var norm := Normalized(tags);
    forall i | 0 <= i < |norm| ensures ' ' !in norm[i] && '\n' !in norm[i] {
      assert norm[i] == NormalizeTag(tags[i]);
      assert NormalizeTag(tags[i]) == tags[i] || NormalizeTag(tags[i]) == "#" + tags[i];
    }
    var line := TagLine(tags);
    JoinFree(norm, ' ', '\n');
    SplitJoin(norm, ' ');
    var body := RenderBody(Some(tags), content, "\n");
    assert body == line + ['\n'] + ("" + ['\n'] + content);
    SplitAfter(line, "" + ['\n'] + content, '\n');
    SplitAfter("", content, '\n');
    assert "" + ['\n'] + content == [] + ['\n'] + content;
  }

  // ---------------------------------------------------------------------------
  // Creating a note

  /** The host services `CreateNote` calls, as functions of their arguments. */
  datatype Host = Host(
    paths: Paths,
    fullPath: string -> string,
    relative: (string, string) -> string,
    makeDirectory: string -> bool,
    fileExists: string -> bool,
    canWrite: (string, string) -> bool,
    newline: string)

  /** A change `CreateNote` leaves on disk. */
  datatype Effect = MakeDirectory(folder: string) | WriteFile(path: string, content: string)

  /** What a call did to the disk and what it answered. */
  datatype Creation = Creation(effects: seq<Effect>, result: Result<string>)

  /** The folder check is an exact, case-insensitive comparison with "dailies". */
  predicate IsDailiesFolder(folder: Option<string>) {
    folder.Some? && folder.value != "" && EqualsIgnoreCase(folder.value, "dailies")
  }

  /** No folder (or an empty one) means the vault root; otherwise the folder under the vault. */
  function TargetFolder(folder: Option<string>, vault: string, host: Host): string {
    if folder.None? || folder.value == "" then vault else host.paths.combine(vault, folder.value)
  }

  function NotePath(title: string, folder: Option<string>, vault: string, host: Host): string {
    host.paths.combine(TargetFolder(folder, vault, host), title + ".md")
  }

  /** The outcome of `CreateNote`: blank title, blank content, the dailies folder, a folder outside
      the vault, a folder that cannot be created, an existing note, a failed write; else the note
      is written and its path relative to the vault is reported. */
  function CreateOutcome(title: string, content: string, tags: Option<seq<string>>,
                         folder: Option<string>, vault: string, host: Host): Creation
  {
    if IsBlank(title) then Creation([], Err(BlankTitle))
    else if IsBlank(content) then Creation([], Err(BlankContent))
    else if IsDailiesFolder(folder) then Creation([], Err(DailiesFolder))
    else
      var target := TargetFolder(folder, vault, host);
      if !InVault(host.fullPath(target), host.fullPath(vault)) then Creation([], Err(FolderOutsideVault))
      else if !host.makeDirectory(target) then Creation([], Err(FolderCreateFailed))
      else
        var filePath := host.paths.combine(target, title + ".md");
        if host.fileExists(filePath) then Creation([MakeDirectory(target)], Err(NoteExists))
        else
          var body := RenderBody(tags, content, host.newline);
          if !host.canWrite(filePath, body) then Creation([MakeDirectory(target)], Err(WriteFailed))
          else Creation([MakeDirectory(target), WriteFile(filePath, body)], Ok(host.relative(vault, filePath)))
  }

  /** `CreateNote`: the checks, the folder creation, the collision test, the body and the write. */
  method CreateNote(title: string, content: string, tags: Option<seq<string>>,
                    folder: Option<string>, vault: string, host: Host) returns (c: Creation)
    ensures c == CreateOutcome(title, content, tags, folder, vault, host)
  {
    if IsBlank(title) {
      return Creation([], Err(BlankTitle));
    }
    if IsBlank(content) {
      return Creation([], Err(BlankContent));
    }
    if folder.Some? && folder.value != "" && EqualsIgnoreCase(folder.value, "dailies") {
      return Creation([], Err(DailiesFolder));
    }
    var targetFolder := if folder.None? || folder.value == "" then vault else host.paths.combine(vault, folder.value);
    if !InVault(host.fullPath(targetFolder), host.fullPath(vault)) {
      return Creation([], Err(FolderOutsideVault));
    }
    if !host.makeDirectory(targetFolder) {
      return Creation([], Err(FolderCreateFailed));
    }
    var effects := [MakeDirectory(targetFolder)];
    var filePath := host.paths.combine(targetFolder, title + ".md");
    if host.fileExists(filePath) {
      return Creation(effects, Err(NoteExists));
    }
    var sb := BuildBody(tags, content, host.newline);
    if !host.canWrite(filePath, sb) {
      return Creation(effects, Err(WriteFailed));
    }
    effects := effects + [WriteFile(filePath, sb)];
    c := Creation(effects, Ok(host.relative(vault, filePath)));
  }

  /** The string builder of `CreateNote`: the tags line and an empty line when there are tags,
      then the content. */
  method BuildBody(tags: Option<seq<string>>, content: string, nl: string) returns (sb: string)
    ensures sb == RenderBody(tags, content, nl)
  {
    sb := "";
    if tags.Some? && |tags.value| > 0 {
      sb := sb + TagLine(tags.value) + nl;
      sb := sb + nl;
    }
    sb := sb + content;
  }

  /** Each check fires exactly when the earlier ones pass and its own condition holds. */
  lemma ValidationOrder(title: string, content: string, tags: Option<seq<string>>,
                        folder: Option<string>, vault: string, host: Host)
    ensures var r := CreateOutcome(title, content, tags, folder, vault, host).result;
      (r == Err(BlankTitle) <==> IsBlank(title)) &&
      (r == Err(BlankContent) <==> !IsBlank(title) && IsBlank(content)) &&
      (r == Err(DailiesFolder) <==> !IsBlank(title) && !IsBlank(content) && IsDailiesFolder(folder)) &&
      (r == Err(FolderOutsideVault) <==>
        !IsBlank(title) && !IsBlank(content) && !IsDailiesFolder(folder) &&
        !InVault(host.fullPath(TargetFolder(folder, vault, host)), host.fullPath(vault)))
  {
  }

  /** Nothing is created on disk exactly when one of the checks before the folder creation fails
      (or the creation itself does). */
  lemma NoEffectIffEarlyFailure(title: string, content: string, tags: Option<seq<string>>,
                                folder: Option<string>, vault: string, host: Host)
    ensures var c := CreateOutcome(title, content, tags, folder, vault, host);
      c.effects == [] <==>
        c.result.Err? && c.result.error in {BlankTitle, BlankContent, DailiesFolder, FolderOutsideVault, FolderCreateFailed}
  {
  }

  /** A name collision is reported only after the folder has been created, and that folder stays. */
  lemma CollisionKeepsFolder(title: string, content: string, tags: Option<seq<string>>,
                             folder: Option<string>, vault: string, host: Host)
    requires CreateOutcome(title, content, tags, folder, vault, host).result == Err(NoteExists)
    ensures CreateOutcome(title, content, tags, folder, vault, host).effects ==
      [MakeDirectory(TargetFolder(folder, vault, host))]
    ensures host.fileExists(NotePath(title, folder, vault, host))
  {
  }

  /** A created note is a new file named after the title in the target folder, holding the rendered
      body, and the answer is its path relative to the vault. */
  lemma CreatedNote(title: string, content: string, tags: Option<seq<string>>,
                    folder: Option<string>, vault: string, host: Host)
    requires CreateOutcome(title, content, tags, folder, vault, host).result.Ok?
    ensures var c := CreateOutcome(title, content, tags, folder, vault, host);
      var path := NotePath(title, folder, vault, host);
      !host.fileExists(path) &&
      c.effects == [MakeDirectory(TargetFolder(folder, vault, host)),
                    WriteFile(path, RenderBody(tags, content, host.newline))] &&
      c.result.value == host.relative(vault, path)
    ensures !IsBlank(title) && !IsBlank(content) && !IsDailiesFolder(folder)
  {
  }

  /** Only the folder is tested against the vault, never the title: whether the folder check
      refuses the call is the same for every non-blank title, although the note's path
      `combine(target, title + ".md")` leaves the folder for a title such as `../x`. */
  lemma TitleNotChecked(title: string, title': string, content: string, tags: Option<seq<string>>,
                        folder: Option<string>, vault: string, host: Host)
    requires !IsBlank(title) && !IsBlank(title')
    ensures CreateOutcome(title, content, tags, folder, vault, host).result == Err(FolderOutsideVault) <==>
      CreateOutcome(title', content, tags, folder, vault, host).result == Err(FolderOutsideVault)
  {
  }

  /** Without a folder the target is the vault itself, which always passes the containment test. */
  lemma RootFolderPasses(title: string, content: string, tags: Option<seq<string>>,
                         folder: Option<string>, vault: string, host: Host)
    requires folder.None? || folder == Some("")
    ensures CreateOutcome(title, content, tags, folder, vault, host).result != Err(FolderOutsideVault)
  {
    ExtensionInVault(host.fullPath(vault), "");
    assert host.fullPath(vault) + "" == host.fullPath(vault);
  }

  /** The dailies check ignores letter case but is otherwise exact: spellings that reach the same
      folder through the path syntax are not caught by it. */
  lemma DailiesCheckIsExact()
    ensures IsDailiesFolder(Some("Dailies"))
    ensures !IsDailiesFolder(Some("./dailies"))
    ensures !IsDailiesFolder(Some("dailies/"))
    ensures !IsDailiesFolder(None)
  {
  }
}
