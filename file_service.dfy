/** The editor wrapper: the extension-to-language table, the path helpers it uses,
    the project walk that collects the solution's files into a dictionary, and the
    workspace (active document, files on disk) that the other services change.
    The editor automation objects and the file system are abstract state here. */
module FileService {
  import opened Strings

  // ---------------------------------------------------------------------------
  // Languages

  /** The extensions the language table knows, as they are matched: exactly, with
      the leading dot, in lower case. */
  const KnownExtensions: set<string> :=
    {".cs", ".vb", ".js", ".ts", ".html", ".css", ".py", ".java", ".cpp", ".h"}

  /** The language tags the table can produce. */
  const LanguageTags: set<string> :=
    {"csharp", "visualbasic", "javascript", "typescript", "html", "css", "python",
     "java", "cpp", "plaintext"}

  /** The language tag of a file extension; anything not in the table is
      "plaintext". */
  function DetermineLanguageFromExtension(extension: string): (language: string)
    ensures language in LanguageTags
    ensures language == "plaintext" <==> extension !in KnownExtensions
  {
    match extension
    case ".cs" => "csharp"
    case ".vb" => "visualbasic"
    case ".js" => "javascript"
    case ".ts" => "typescript"
    case ".html" => "html"
    case ".css" => "css"
    case ".py" => "python"
    case ".java" => "java"
    case ".cpp" => "cpp"
    case ".h" => "cpp"
    case _ => "plaintext"
  }

  /** C++ sources and headers share one tag, and matching is exact: an upper-case
      extension is not recognised by the table itself. */
  lemma HeaderAndSourceShareTag()
    ensures DetermineLanguageFromExtension(".h") == DetermineLanguageFromExtension(".cpp") == "cpp"
    ensures DetermineLanguageFromExtension(".CS") == "plaintext"
    ensures DetermineLanguageFromExtension("") == "plaintext"
  {
  }

  /** The separators Path.GetExtension stops at on Windows: the directory separator,
      the alternative directory separator and the volume separator. */
  predicate IsPathSeparator(c: char)
  {
    c == '\\' || c == '/' || c == ':'
  }

  /** Path.GetExtension, scanning backwards from index `i`: the text from the last
      dot of the file name on, or "" when the name has no dot or ends with one. */
  function ExtensionScan(path: string, i: nat): (ext: string)
    requires i <= |path|
    requires forall k :: i <= k < |path| ==> path[k] != '.' && !IsPathSeparator(path[k])
    ensures ext == "" || (|ext| >= 2 && ext[0] == '.' && EndsWith(path, ext))
    ensures forall k :: 1 <= k < |ext| ==> ext[k] != '.' && !IsPathSeparator(ext[k])
  {
    if i == 0 then ""
    else if path[i - 1] == '.' then (if i == |path| then "" else path[i - 1..])
    else if IsPathSeparator(path[i - 1]) then ""
    else ExtensionScan(path, i - 1)
  }

  function GetExtension(path: string): (ext: string)
    ensures ext == "" || (|ext| >= 2 && ext[0] == '.' && EndsWith(path, ext))
    ensures forall k :: 1 <= k < |ext| ==> ext[k] != '.' && !IsPathSeparator(ext[k])
  {
    ExtensionScan(path, |path|)
  }

  lemma {:induction false} ExtensionScanLower(path: string, i: nat)
    requires i <= |path|
    requires forall k :: i <= k < |path| ==> path[k] != '.' && !IsPathSeparator(path[k])
    ensures ExtensionScan(ToLower(path), i) == ToLower(ExtensionScan(path, i))
  {
    if i > 0 {
      assert ToLower(path)[i - 1] == LowerChar(path[i - 1]);
      if path[i - 1] == '.' {
        if i != |path| {
          ToLowerSlice(path, i - 1, |path|);
          assert path[i - 1..|path|] == path[i - 1..];
          assert ToLower(path)[i - 1..|path|] == ToLower(path)[i - 1..];
        }
      } else if !IsPathSeparator(path[i - 1]) {
        ExtensionScanLower(path, i - 1);
      }
    }
  }

  /** The language of a document: the table applied to its lower-cased extension. */
  function DocumentLanguage(fullName: string): (language: string)
    ensures language in LanguageTags
    ensures language == "plaintext" <==> ToLower(GetExtension(fullName)) !in KnownExtensions
    ensures GetExtension(fullName) == "" ==> language == "plaintext"
  {
    DetermineLanguageFromExtension(ToLower(GetExtension(fullName)))
  }

  /** Because the extension is lower-cased before the lookup, the case of the file
      name does not matter. */
  lemma DocumentLanguageIgnoresCase(fullName: string)
    ensures DocumentLanguage(ToLower(fullName)) == DocumentLanguage(fullName)
  {
    ExtensionScanLower(fullName, |fullName|);
    ToLowerIdempotent(GetExtension(fullName));
  }

  /** "X.CS" is a C# file. */
  lemma UpperCaseExtension()
    ensures DocumentLanguage("X.CS") == "csharp"
  {
    var x := "X.CS";
    assert x[1] == '.' && !IsPathSeparator(x[2]) && !IsPathSeparator(x[3]);
    assert ExtensionScan(x, 4) == ExtensionScan(x, 3) == ExtensionScan(x, 2) == x[1..];
    assert ToLower(".CS") == ".cs";
  }

  // ---------------------------------------------------------------------------
  // Project membership

  /** A file belongs to a project when its path starts with the project's directory,
      compared without regard to case; an empty directory contains nothing. The
      directory is the value Path.GetDirectoryName gives for the project file. */
  function IsFileInProject(projectDir: string, filePath: string): (r: bool)
    ensures r <==> projectDir != [] && |projectDir| <= |filePath|
                   && forall i :: 0 <= i < |projectDir| ==> LowerChar(filePath[i]) == LowerChar(projectDir[i])
  {
    StartsWithLower(filePath, projectDir);
    projectDir != [] && StartsWith(ToLower(filePath), ToLower(projectDir))
  }

  lemma StartsWithLower(s: string, prefix: string)
    ensures StartsWith(ToLower(s), ToLower(prefix)) <==>
      |prefix| <= |s| && forall i :: 0 <= i < |prefix| ==> LowerChar(s[i]) == LowerChar(prefix[i])
  {
    if |prefix| <= |s| && forall i :: 0 <= i < |prefix| ==> LowerChar(s[i]) == LowerChar(prefix[i]) {
      assert forall i :: 0 <= i < |prefix| ==> ToLower(s)[..|prefix|][i] == ToLower(prefix)[i];
    }
    if StartsWith(ToLower(s), ToLower(prefix)) {
      forall i | 0 <= i < |prefix| ensures LowerChar(s[i]) == LowerChar(prefix[i]) {
        assert ToLower(s)[..|prefix|][i] == ToLower(prefix)[i];
      }
    }
  }

  /** Case does not matter on either side of the test. */
  lemma ProjectTestIgnoresCase(projectDir: string, filePath: string)
    ensures IsFileInProject(ToLower(projectDir), filePath) == IsFileInProject(projectDir, filePath)
    ensures IsFileInProject(projectDir, ToLower(filePath)) == IsFileInProject(projectDir, filePath)
  {
    forall c: char ensures LowerChar(LowerChar(c)) == LowerChar(c) {
      LowerCharIdempotent(c);
    }
  }

  // ---------------------------------------------------------------------------
  // Dictionaries

  /** The value of a Dictionary<string, string>: its keys in insertion order (the
      order it enumerates in, since nothing is ever removed) and its entries. */
  datatype Table = Table(keys: seq<string>, entries: map<string, string>)
  {
    ghost predicate Valid()
    {
      (forall i, j :: 0 <= i < j < |keys| ==> keys[i] != keys[j])
      && (forall k :: k in entries <==> k in keys)
    }

    /** dictionary[key] = value: a new key goes to the end, an existing one keeps
        its place. */
    function Put(key: string, value: string): (t: Table)
      requires Valid()
      ensures t.Valid()
      ensures t.entries == entries[key := value]
      ensures t.keys == if key in entries then keys else keys + [key]
    {
      if key in entries then Table(keys, entries[key := value])
      else Table(keys + [key], entries[key := value])
    }
  }

  const EmptyTable: Table := Table([], map[])

  class Dictionary {
    var contents: Table

    constructor ()
      ensures contents == EmptyTable
    {
      contents := EmptyTable;
    }

    function ContainsKey(key: string): (r: bool)
      reads this
      ensures r <==> key in contents.entries
    {
      key in contents.entries
    }

    method Set(key: string, value: string)
      requires contents.Valid()
      modifies this
      ensures contents == old(contents).Put(key, value)
    {
      contents := contents.Put(key, value);
    }
  }

  // ---------------------------------------------------------------------------
  // Walking a project

  /** A project item as the walk sees it. A physical file carries its full path and
      what File.ReadAllText gives for it, or None when the file does not exist or
      cannot be read. A physical folder carries its sub-items. Any other item carries
      the items of the sub-project it wraps, none when it wraps no sub-project (a
      missing sub-project and an empty one are walked alike). */
  datatype Item =
    | PhysicalFile(fullPath: string, text: Option<string>)
    | PhysicalFolder(subItems: seq<Item>)
    | Other(subProject: seq<Item>)

  /** The insertion rule shared by every file visit: a non-empty path that is not in
      the dictionary yet and whose file can be read is added; nothing is ever
      overwritten. */
  function VisitFile(fullPath: string, text: Option<string>, t: Table): (r: Table)
    requires t.Valid()
    ensures r.Valid()
    ensures forall k :: k in t.entries ==> k in r.entries && r.entries[k] == t.entries[k]
    ensures r.keys == t.keys || (r.keys == t.keys + [fullPath] && fullPath != "" && text == Some(r.entries[fullPath]))
  {
    if fullPath != "" && fullPath !in t.entries && text.Some? then t.Put(fullPath, text.value) else t
  }

  /** The walk as written: a folder's sub-items are visited through their
      sub-projects only, so a plain file inside a folder is never reached. */
  function WalkAsWritten(items: seq<Item>, t: Table): (r: Table)
    requires t.Valid()
    ensures r.Valid()
    ensures forall k :: k in t.entries ==> k in r.entries && r.entries[k] == t.entries[k]
    decreases items, 1
  {
    if items == [] then t
    else
      var last := items[|items| - 1];
      var before := WalkAsWritten(items[..|items| - 1], t);
      match last
      case PhysicalFile(p, text) => VisitFile(p, text, before)
      case PhysicalFolder(subs) => FolderAsWritten(subs, before)
      case Other(sub) => WalkAsWritten(sub, before)
  }

  function FolderAsWritten(subs: seq<Item>, t: Table): (r: Table)
    requires t.Valid()
    ensures r.Valid()
    ensures forall k :: k in t.entries ==> k in r.entries && r.entries[k] == t.entries[k]
    decreases subs, 0
  {
    if subs == [] then t
    else
      var last := subs[|subs| - 1];
      var before := FolderAsWritten(subs[..|subs| - 1], t);
      if last.Other? then WalkAsWritten(last.subProject, before) else before
  }

  /** A file inside a folder that the walk as written skips. */
  lemma WalkAsWrittenSkipsFolderFiles()
    ensures WalkAsWritten([PhysicalFolder([PhysicalFile("src\\a.cs", Some("class A {}"))])], EmptyTable) == EmptyTable
  {
    var folder := PhysicalFolder([PhysicalFile("src\\a.cs", Some("class A {}"))]);
    assert [folder][..0] == [];
    assert [PhysicalFile("src\\a.cs", Some("class A {}"))][..0] == [];
  }

  /** The walk the source evidently intends: a folder's sub-items are visited like a
      project's own items, so files at any depth are collected. */
  function Walk(items: seq<Item>, t: Table): (r: Table)
    requires t.Valid()
    ensures r.Valid()
    ensures forall k :: k in t.entries ==> k in r.entries && r.entries[k] == t.entries[k]
    ensures "" in r.entries ==> "" in t.entries
    ensures t.keys <= r.keys
    decreases items
  {
    if items == [] then t
    else
      var before := Walk(items[..|items| - 1], t);
      VisitItem(items[|items| - 1], before)
  }

  function VisitItem(item: Item, t: Table): (r: Table)
    requires t.Valid()
    ensures r.Valid()
    ensures forall k :: k in t.entries ==> k in r.entries && r.entries[k] == t.entries[k]
    ensures "" in r.entries ==> "" in t.entries
    ensures t.keys <= r.keys
    decreases item
  {
    match item
    case PhysicalFile(p, text) => VisitFile(p, text, t)
    case PhysicalFolder(subs) => Walk(subs, t)
    case Other(sub) => Walk(sub, t)
  }

  /** `path` names a readable file somewhere in the tree, through folders and
      sub-projects. */
  predicate FileInItem(item: Item, path: string)
    decreases item
  {
    match item
    case PhysicalFile(p, text) => p == path && text.Some?
    case PhysicalFolder(subs) => exists k :: 0 <= k < |subs| && FileInItem(subs[k], path)
    case Other(sub) => exists k :: 0 <= k < |sub| && FileInItem(sub[k], path)
  }

  /** Completeness of the intended walk: every readable file with a non-empty path,
      at any depth, ends up in the dictionary. */
  lemma {:induction false} WalkFindsEveryFile(items: seq<Item>, t: Table, path: string, k: int)
    requires t.Valid() && path != ""
    requires 0 <= k < |items| && FileInItem(items[k], path)
    ensures path in Walk(items, t).entries
    decreases items
  {
    var init := items[..|items| - 1];
    var before := Walk(init, t);
    if k == |items| - 1 {
      VisitFindsFile(items[k], before, path);
    } else {
      assert init[k] == items[k];
      WalkFindsEveryFile(init, t, path, k);
    }
  }

  lemma {:induction false} VisitFindsFile(item: Item, t: Table, path: string)
    requires t.Valid() && path != ""
    requires FileInItem(item, path)
    ensures path in VisitItem(item, t).entries
    decreases item
  {
    match item
    case PhysicalFile(p, text) =>
    case PhysicalFolder(subs) =>
      var k :| 0 <= k < |subs| && FileInItem(subs[k], path);
      WalkFindsEveryFile(subs, t, path, k);
    case Other(sub) =>
      var k :| 0 <= k < |sub| && FileInItem(sub[k], path);
      WalkFindsEveryFile(sub, t, path, k);
  }

  /** `path` names a file somewhere in the tree whose text is `text`. */
  predicate FileWithText(item: Item, path: string, text: string)
    decreases item
  {
    match item
    case PhysicalFile(p, t) => p == path && t == Some(text)
    case PhysicalFolder(subs) => exists k :: 0 <= k < |subs| && FileWithText(subs[k], path, text)
    case Other(sub) => exists k :: 0 <= k < |sub| && FileWithText(sub[k], path, text)
  }

  /** Soundness of the intended walk: every key it adds names a file of the tree, and
      its value is that file's text. */
  lemma {:induction false} WalkIsSound(items: seq<Item>, t: Table, path: string)
    requires t.Valid()
    requires path in Walk(items, t).entries && path !in t.entries
    ensures exists k :: 0 <= k < |items| && FileWithText(items[k], path, Walk(items, t).entries[path])
    decreases items
  {
    if items != [] {
      var init := items[..|items| - 1];
      var before := Walk(init, t);
      var last := |items| - 1;
      if path in before.entries {
        WalkIsSound(init, t, path);
        var k :| 0 <= k < |init| && FileWithText(init[k], path, before.entries[path]);
        assert items[k] == init[k];
      } else {
        VisitIsSound(items[last], before, path);
      }
    }
  }

  lemma {:induction false} VisitIsSound(item: Item, t: Table, path: string)
    requires t.Valid()
    requires path in VisitItem(item, t).entries && path !in t.entries
    ensures FileWithText(item, path, VisitItem(item, t).entries[path])
    decreases item
  {
    match item
    case PhysicalFile(p, text) =>
    case PhysicalFolder(subs) =>
      WalkIsSound(subs, t, path);
    case Other(sub) =>
      WalkIsSound(sub, t, path);
  }

  /** GetFilesInProject, following the intended folder rule: fills `files` in place,
      visiting the items in order and recursing into folders and sub-projects. */
  method GetFilesInProject(items: seq<Item>, files: Dictionary)
    requires files.contents.Valid()
    modifies files
    ensures files.contents == Walk(items, old(files.contents))
    decreases items
  {
    ghost var t0 := files.contents;
    var i := 0;
    while i < |items|
      invariant 0 <= i <= |items|
      invariant files.contents == Walk(items[..i], t0)
    {
      assert items[..i + 1][..i] == items[..i];
      match items[i] {
        case PhysicalFile(p, text) =>
          if p != "" && !files.ContainsKey(p) && text.Some? {
            files.Set(p, text.value);
          }
        case PhysicalFolder(subs) =>
          GetFilesInProject(subs, files);
        case Other(sub) =>
          GetFilesInProject(sub, files);
      }
      i := i + 1;
    }
    assert items[..|items|] == items;
  }

  /** The files of every project, in project order; a missing solution gives an
      empty dictionary. */
  function WalkSolution(projects: seq<seq<Item>>, t: Table): (r: Table)
    requires t.Valid()
    ensures r.Valid()
    ensures forall k :: k in t.entries ==> k in r.entries && r.entries[k] == t.entries[k]
    ensures "" in r.entries ==> "" in t.entries
    ensures t.keys <= r.keys
  {
    if projects == [] then t
    else Walk(projects[|projects| - 1], WalkSolution(projects[..|projects| - 1], t))
  }

  /** Soundness across the solution: every key added names a file of some project,
      and its value is that file's text. */
  lemma {:induction false} WalkSolutionIsSound(projects: seq<seq<Item>>, t: Table, path: string)
    requires t.Valid()
    requires path in WalkSolution(projects, t).entries && path !in t.entries
    ensures exists j, k ::
      0 <= j < |projects| && 0 <= k < |projects[j]|
      && FileWithText(projects[j][k], path, WalkSolution(projects, t).entries[path])
  {
    if projects != [] {
      var init := projects[..|projects| - 1];
      var before := WalkSolution(init, t);
      var last := |projects| - 1;
      if path in before.entries {
        WalkSolutionIsSound(init, t, path);
        var j, k :| 0 <= j < |init| && 0 <= k < |init[j]| && FileWithText(init[j][k], path, before.entries[path]);
        assert projects[j] == init[j];
      } else {
        WalkIsSound(projects[last], before, path);
      }
    }
  }

  method GetAllFiles(solution: Option<seq<seq<Item>>>) returns (files: Dictionary)
    ensures fresh(files)
    ensures files.contents == if solution.None? then EmptyTable else WalkSolution(solution.value, EmptyTable)
  {
    files := new Dictionary();
    if solution.None? {
      return;
    }
    var projects := solution.value;
    var i := 0;
    while i < |projects|
      invariant 0 <= i <= |projects|
      invariant files.contents == WalkSolution(projects[..i], EmptyTable)
    {
      assert projects[..i + 1][..i] == projects[..i];
      GetFilesInProject(projects[i], files);
      i := i + 1;
    }
    assert projects[..|projects|] == projects;
  }

  // ---------------------------------------------------------------------------
  // The workspace

  /** The active document: its full name and, when it is a text document, its text. */
  datatype Document = Document(fullName: string, text: Option<string>)

  /** How far one call of CreateFileAsync got: nothing done (the write threw), the
      file written but the project add threw, or both done. */
  datatype Stage = Untouched | WrittenOnly | Created

  /** One call of CreateFileAsync: the path and content it was given and how far it
      got. */
  datatype Creation = Creation(path: string, content: string, stage: Stage)
  {
    /** The call returned true. */
    predicate ok()
    {
      stage == Created
    }

    /** The file was written, whether or not the call then returned true. */
    predicate wrote()
    {
      stage != Untouched
    }
  }

  /** The disk after one creation: its file holds its content when it was written. */
  function Write(disk: map<string, string>, c: Creation): map<string, string>
  {
    if c.wrote() then disk[c.path := c.content] else disk
  }

  /** The disk after a run of creations, applied in order. */
  function Written(disk: map<string, string>, cs: seq<Creation>): map<string, string>
  {
    if cs == [] then disk else Write(Written(disk, cs[..|cs| - 1]), cs[|cs| - 1])
  }

  lemma WrittenSnoc(disk: map<string, string>, cs: seq<Creation>, c: Creation)
    ensures Written(disk, cs + [c]) == Write(Written(disk, cs), c)
  {
    assert (cs + [c])[..|cs|] == cs;
  }

  /** A path that no creation names keeps what it held: present or absent, and the
      same content. */
  lemma {:induction false} WrittenKeepsOthers(disk: map<string, string>, cs: seq<Creation>, p: string)
    requires forall k :: 0 <= k < |cs| ==> cs[k].path != p
    ensures p in Written(disk, cs) <==> p in disk
    ensures p in disk ==> Written(disk, cs)[p] == disk[p]
  {
    if cs != [] {
      WrittenKeepsOthers(disk, cs[..|cs| - 1], p);
    }
  }

  /** A creation that succeeded leaves its file holding its content, unless a later
      creation writes the same path again. */
  lemma {:induction false} CreatedFileHolds(disk: map<string, string>, cs: seq<Creation>, k: nat)
    requires k < |cs| && cs[k].ok()
    requires forall j :: k < j < |cs| ==> cs[j].path != cs[k].path
    ensures cs[k].path in Written(disk, cs) && Written(disk, cs)[cs[k].path] == cs[k].content
  {
    if k < |cs| - 1 {
      CreatedFileHolds(disk, cs[..|cs| - 1], k);
    } else {
      assert Written(disk, cs) == Written(disk, cs[..k])[cs[k].path := cs[k].content];
    }
  }

  /** The document after its whole text is replaced, when there is a text document. */
  function Replaced(active: Option<Document>, newContent: string): (r: Option<Document>)
    ensures r.Some? <==> active.Some?
    ensures active.Some? ==> r.value.fullName == active.value.fullName
    ensures active.Some? && active.value.text.Some? ==> r.value.text == Some(newContent)
    ensures active.None? || active.value.text.None? ==> r == active
  {
    if active.Some? && active.value.text.Some? then Some(active.value.(text := Some(newContent)))
    else active
  }

  /** The outcome of replacing the active document's text with `newContent`. A success
      means there was a text document, it now holds the new content and its file is
      saved. A failure leaves the disk alone and the text as it was, emptied by the
      delete, or replaced by the insert before the save threw. */
  predicate Updated(before: Option<Document>, diskBefore: map<string, string>, newContent: string,
                    ok: bool, after: Option<Document>, diskAfter: map<string, string>)
  {
    if ok then
      before.Some? && before.value.text.Some? && after == Replaced(before, newContent)
      && diskAfter == diskBefore[before.value.fullName := newContent]
    else
      diskAfter == diskBefore
      && (after == before || after == Replaced(before, "") || after == Replaced(before, newContent))
  }

  /** Without an active text document the update fails and changes nothing. */
  lemma UpdateNeedsTextDocument(before: Option<Document>, diskBefore: map<string, string>, newContent: string,
                                ok: bool, after: Option<Document>, diskAfter: map<string, string>)
    requires Updated(before, diskBefore, newContent, ok, after, diskAfter)
    requires before.None? || before.value.text.None?
    ensures !ok && after == before && diskAfter == diskBefore
  {
  }

  /** Whatever the outcome, the same document stays active under the same name. */
  lemma UpdateKeepsDocument(before: Option<Document>, diskBefore: map<string, string>, newContent: string,
                            ok: bool, after: Option<Document>, diskAfter: map<string, string>)
    requires Updated(before, diskBefore, newContent, ok, after, diskAfter)
    ensures after.Some? <==> before.Some?
    ensures before.Some? ==> after.value.fullName == before.value.fullName
  {
  }

  /** Replacing the whole text is idempotent. */
  lemma ReplaceTwice(active: Option<Document>, newContent: string)
    ensures Replaced(Replaced(active, newContent), newContent) == Replaced(active, newContent)
  {
  }

  /** The editor and the disk as the services see them. */
  class Workspace {
    var active: Option<Document>
    var disk: map<string, string>
    /** Every file creation requested, with its outcome. */
    ghost var log: seq<Creation>

    constructor (active: Option<Document>, disk: map<string, string>)
      ensures this.active == active && this.disk == disk && log == []
    {
      this.active := active;
      this.disk := disk;
      log := [];
    }

    function HasTextDocument(): (r: bool)
      reads this
      ensures r <==> active.Some? && active.value.text.Some?
    {
      active.Some? && active.value.text.Some?
    }

    /** GetActiveDocumentContentAsync: the text and language of the active text
        document, or two empty strings. */
    function ActiveContent(): (r: (string, string))
      reads this
      ensures !HasTextDocument() ==> r == ("", "")
      ensures HasTextDocument() ==> r.0 == active.value.text.value
      ensures HasTextDocument() ==> r.1 in LanguageTags
    {
      if HasTextDocument() then (active.value.text.value, DocumentLanguage(active.value.fullName))
      else ("", "")
    }

    /** GetActiveDocumentPath: the full name of any active document, or "". */
    function ActivePath(): (path: string)
      reads this
      ensures active.None? ==> path == ""
      ensures active.Some? ==> path == active.value.fullName
    {
      if active.Some? then active.value.fullName else ""
    }

    /** UpdateActiveDocumentAsync: deletes the whole text of the active text document,
        inserts the new content and saves. With no active document, or one that is not
        a text document, it returns false and changes nothing. Delete, Insert and Save
        can each throw, and the method then returns false: the text is left as it was,
        empty, or already replaced but not saved. */
    method UpdateActiveDocument(newContent: string) returns (ok: bool)
      modifies this
      ensures Updated(old(active), old(disk), newContent, ok, active, disk)
      ensures log == old(log)
    {
      if active.None? || active.value.text.None? {
        return false;
      }
      var stage: int :| 0 <= stage <= 3;
      if stage >= 1 {
        active := Some(active.value.(text := Some("")));
      }
      if stage >= 2 {
        active := Some(active.value.(text := Some(newContent)));
      }
      if stage >= 3 {
        disk := disk[active.value.fullName := newContent];
      }
      ok := stage == 3;
    }

    /** CreateFileAsync: writes the file and adds it to its project. Either step can
        throw, and the method then returns false: before the write nothing changes,
        after it the file stays written. `c` records how far the call got. */
    method CreateFile(path: string, content: string) returns (ok: bool, ghost c: Creation)
      modifies this
      ensures c.path == path && c.content == content && c.ok() == ok
      ensures ok ==> disk == old(disk)[path := content]
      ensures !ok ==> disk == old(disk) || disk == old(disk)[path := content]
      ensures disk == Write(old(disk), c)
      ensures active == old(active)
      ensures log == old(log) + [c]
    {
      var stage: int :| 0 <= stage <= 2;
      if stage >= 1 {
        disk := disk[path := content];
      }
      ok := stage == 2;
      c := Creation(path, content, if stage == 0 then Untouched else if stage == 1 then WrittenOnly else Created);
      log := log + [c];
    }
  }
}
