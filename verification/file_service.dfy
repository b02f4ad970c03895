/**
 * The rename-planning engine (FileService): folder scan post-processing,
 * filename sanitising, pattern expansion, preview generation with the
 * running counter and conflict detection, and rename execution.
 *
 * The file system is an input: a Disk value lists each existing folder's
 * files and says which names are taken; File.Move is a function giving the
 * outcome of each move.
 */
module FileService {
  import opened Models
  import opened Strings

  /** Path.GetInvalidFileNameChars() on Unix. */
  const UnixInvalidFileNameChars: set<char> := {'\0', '/'}

  // ===========================================================================
  // ScanFolder
  // ===========================================================================

  /** One file of a recursive directory listing, as System.IO.FileInfo presents it. */
  datatype DiskFile = DiskFile(
    name: string,
    fullName: string,
    relativeDirectory: string,  // Path.GetRelativePath(scan root, the file's directory): "." for the root
    extension: string,          // FileInfo.Extension as spelled on disk
    length: int,
    creationTime: int,
    lastWriteTime: int,
    metadata: Metadata)         // what ExtractMetadata returns for this file

  /** The file system as the core sees it. */
  datatype Disk = Disk(
    folders: map<string, seq<DiskFile>>,  // each existing folder, with every file below it
    occupied: set<(string, string)>)      // (folder, name): a file named name exists in folder

  /** The extension filter of ScanFolder: none, empty, or some entry equal ignoring case. */
  predicate MatchesFilter(f: DiskFile, extensions: Option<seq<string>>)
  {
    || extensions.None?
    || |extensions.value| == 0
    || exists ext :: ext in extensions.value && EqualsIgnoreCase(f.extension, ext)
  }

  /** The record ScanFolder builds for a listed file. */
  function ToFileInfo(f: DiskFile): (r: FileInfo)
    ensures r.name == f.name && r.fullPath == f.fullName && r.metadata == f.metadata
    ensures r.size == f.length && r.createdAt == f.creationTime && r.modifiedAt == f.lastWriteTime
    ensures r.isSelected
    ensures r.relativePath == if f.relativeDirectory == "." then "" else f.relativeDirectory
    ensures IsLowerInvariant(r.extension) && EqualsIgnoreCase(r.extension, f.extension)
    ensures r.extension == ToLowerInvariant(f.extension)
  {
    FileInfo(
      f.name,
      f.fullName,
      if f.relativeDirectory == "." then "" else f.relativeDirectory,
      ToLowerInvariant(f.extension),
      f.length,
      f.creationTime,
      f.lastWriteTime,
      true,
      f.metadata)
  }

  /** The Where and Select stages of ScanFolder, in listing order. */
  function Select(listing: seq<DiskFile>, extensions: Option<seq<string>>): seq<FileInfo>
  {
    if listing == [] then []
    else
      (if MatchesFilter(listing[0], extensions) then [ToFileInfo(listing[0])] else [])
      + Select(listing[1..], extensions)
  }

  predicate SortedByFullPath(s: seq<FileInfo>)
  {
    forall i, j :: 0 <= i < j < |s| ==> OrdinalLessOrEqual(s[i].fullPath, s[j].fullPath)
  }

  /** y's path is no greater than any path in s. */
  predicate BelowAll(y: FileInfo, s: seq<FileInfo>)
  {
    forall j :: 0 <= j < |s| ==> OrdinalLessOrEqual(y.fullPath, s[j].fullPath)
  }

  lemma ConsSorted(y: FileInfo, s: seq<FileInfo>)
    requires SortedByFullPath(s) && BelowAll(y, s)
    ensures SortedByFullPath([y] + s)
  {
    var t := [y] + s;
    forall i, j | 0 <= i < j < |t|
      ensures OrdinalLessOrEqual(t[i].fullPath, t[j].fullPath)
    {
      assert t[j] == s[j - 1];
      if i > 0 {
        assert t[i] == s[i - 1];
      }
    }
  }

  /** Below the head of a sorted sequence is below all of it. */
  lemma BelowHead(y: FileInfo, s: seq<FileInfo>)
    requires SortedByFullPath(s)
    requires s == [] || OrdinalLessOrEqual(y.fullPath, s[0].fullPath)
    ensures BelowAll(y, s)
  {
    forall j | 0 < j < |s|
      ensures OrdinalLessOrEqual(y.fullPath, s[j].fullPath)
    {
      OrdinalTransitive(y.fullPath, s[0].fullPath, s[j].fullPath);
    }
  }

  /** BelowAll depends on the elements only. */
  lemma BelowAllElements(y: FileInfo, s: seq<FileInfo>, t: seq<FileInfo>)
    requires BelowAll(y, s)
    requires forall k :: 0 <= k < |t| ==> t[k] in multiset(s)
    ensures BelowAll(y, t)
  {
    forall k | 0 <= k < |t|
      ensures OrdinalLessOrEqual(y.fullPath, t[k].fullPath)
    {
      assert t[k] in s;
    }
  }

  /** Inserts x before the first element whose path is not smaller (keeps OrderBy stable). */
  function InsertByFullPath(x: FileInfo, s: seq<FileInfo>): (r: seq<FileInfo>)
    requires SortedByFullPath(s)
    ensures SortedByFullPath(r)
    ensures multiset(r) == multiset(s) + multiset{x}
  {
    if s == [] || OrdinalLessOrEqual(x.fullPath, s[0].fullPath) then
      BelowHead(x, s);
      ConsSorted(x, s);
      [x] + s
    else
      var tail := InsertByFullPath(x, s[1..]);
      BelowInserted(x, s, tail);
      ConsSorted(s[0], tail);
      assert s == [s[0]] + s[1..];
      [s[0]] + tail
  }

  /** The head of a sorted sequence, when x goes after it, is below the tail with x inserted. */
  lemma BelowInserted(x: FileInfo, s: seq<FileInfo>, tail: seq<FileInfo>)
    requires SortedByFullPath(s) && s != [] && !OrdinalLessOrEqual(x.fullPath, s[0].fullPath)
    requires multiset(tail) == multiset(s[1..]) + multiset{x}
    ensures BelowAll(s[0], tail)
  {
    OrdinalTotal(x.fullPath, s[0].fullPath);
    var u := s[1..] + [x];
    assert multiset(u) == multiset(tail);
    assert BelowAll(s[0], u) by {
      forall k | 0 <= k < |u|
        ensures OrdinalLessOrEqual(s[0].fullPath, u[k].fullPath)
      {
        if k < |s[1..]| {
          assert u[k] == s[k + 1];
        }
      }
    }
    BelowAllElements(s[0], u, tail);
  }

  /** OrderBy(f => f.FullPath), with the ordinal order of strings. */
  function SortByFullPath(s: seq<FileInfo>): (r: seq<FileInfo>)
    ensures SortedByFullPath(r)
    ensures multiset(r) == multiset(s)
  {
    if s == [] then []
    else
      assert s == [s[0]] + s[1..];
      InsertByFullPath(s[0], SortByFullPath(s[1..]))
  }

  /**
   * ScanFolder: DirectoryNotFoundException for a missing folder; otherwise the
   * listed files that pass the extension filter, as FileInfo records sorted by
   * full path.
   */
  function ScanFolder(folderPath: string, extensions: Option<seq<string>>, disk: Disk): (r: Result<seq<FileInfo>, Error>)
    ensures r.Err? <==> folderPath !in disk.folders
    ensures r.Err? ==> r.error == DirectoryNotFound("Folder not found: " + folderPath)
    ensures r.Ok? ==> SortedByFullPath(r.value)
    ensures r.Ok? ==> multiset(r.value) == multiset(Select(disk.folders[folderPath], extensions))
  {
    if folderPath !in disk.folders then Err(DirectoryNotFound("Folder not found: " + folderPath))
    else Ok(SortByFullPath(Select(disk.folders[folderPath], extensions)))
  }

  // ===========================================================================
  // SanitizeForFilename
  // ===========================================================================

  /** name.Where(c => !invalid.Contains(c)) */
  function RemoveInvalidChars(s: string, invalid: set<char>): (r: string)
    ensures |r| <= |s|
    ensures forall i :: 0 <= i < |r| ==> r[i] !in invalid
    ensures (forall i :: 0 <= i < |s| ==> s[i] !in invalid) ==> r == s
  {
    if s == [] then []
    else (if s[0] in invalid then [] else [s[0]]) + RemoveInvalidChars(s[1..], invalid)
  }

  /** A single character is kept exactly when it is valid. */
  lemma RemoveInvalidCharsOne(c: char, invalid: set<char>)
    ensures RemoveInvalidChars([c], invalid) == if c in invalid then [] else [c]
  {
    assert [c][1..] == [];
  }

  /** The filter works character by character: it keeps the valid characters of each part, in order. */
  lemma {:induction false} RemoveInvalidCharsAppend(a: string, b: string, invalid: set<char>)
    ensures RemoveInvalidChars(a + b, invalid) == RemoveInvalidChars(a, invalid) + RemoveInvalidChars(b, invalid)
  {
    if a == [] {
      assert a + b == b;
    } else {
      assert (a + b)[0] == a[0];
      assert (a + b)[1..] == a[1..] + b;
      RemoveInvalidCharsAppend(a[1..], b, invalid);
    }
  }

  /** Drops the platform's invalid filename characters, then trims white space. */
  function SanitizeForFilename(name: string, invalid: set<char>): (r: string)
    ensures |r| <= |name|
    ensures forall i :: 0 <= i < |r| ==> r[i] !in invalid
    ensures r == [] || (!IsWhiteSpace(r[0]) && !IsWhiteSpace(r[|r| - 1]))
    ensures var kept := RemoveInvalidChars(name, invalid); TrimmedAt(kept, r, SkipWhiteSpace(kept, 0))
  {
    Trim(RemoveInvalidChars(name, invalid))
  }

  // ===========================================================================
  // ApplyPattern
  // ===========================================================================

  /** The metadata loop of ApplyPattern: each entry's {key} is replaced ignoring case, in order. */
  function SubstituteMetadata(s: string, metadata: Metadata): (r: string)
    ensures NoBrace(s) ==> r == s
    decreases |metadata|
  {
    if metadata == [] then s
    else
      ReplaceNoBrace(s, "{" + metadata[0].0 + "}", metadata[0].1, true);
      SubstituteMetadata(Replace(s, "{" + metadata[0].0 + "}", metadata[0].1, true), metadata[1..])
  }

  /** Length of the run of digits at the start of s. */
  function DigitRun(s: string): (n: nat)
    ensures n <= |s| && AllDigits(s[..n])
    ensures n < |s| ==> !IsDigit(s[n])
  {
    if s != [] && IsDigit(s[0]) then
      assert s[..1 + DigitRun(s[1..])] == [s[0]] + s[1..][..DigitRun(s[1..])];
      1 + DigitRun(s[1..])
    else 0
  }

  /** A match of \{counter(?::(\d+))?\}: its length and the digits of the group, if present. */
  datatype CounterMatch = CounterMatch(length: nat, digits: Option<string>)

  /** The match of \{counter(?::(\d+))?\} that starts at s[0], if there is one. */
  function MatchCounterPlaceholder(s: string): (m: Option<CounterMatch>)
    ensures m.Some? && m.value.digits.None? ==> m.value.length == 9 <= |s| && s[..9] == "{counter}"
    ensures m.Some? && m.value.digits.Some? ==>
      var d := m.value.digits.value;
      && |d| > 0 && AllDigits(d)
      && m.value.length == 10 + |d| <= |s|
      && s[..m.value.length] == "{counter:" + d + "}"
  {
    if !StartsWith(s, "{counter", false) then None
    else if 8 < |s| && s[8] == ':' then
      var n := DigitRun(s[9..]);
      if 0 < n && 9 + n < |s| && s[9 + n] == '}' then
        assert s[..10 + n] == s[..8] + [':'] + s[9..][..n] + ['}'];
        Some(CounterMatch(10 + n, Some(s[9..][..n])))
      else None
    else if 8 < |s| && s[8] == '}' then
      assert s[..9] == s[..8] + ['}'];
      Some(CounterMatch(9, None))
    else None
  }

  /**
   * The Regex.Replace step of ApplyPattern: {counter} becomes {counter:3} and
   * {counter:N} becomes {counter:<int.Parse(N)>}; no number is inserted.
   */
  function CanonicalizeCounters(s: string): (r: Result<string, Error>)
    ensures r.Err? ==> r.error == Overflow
    decreases |s|
  {
    if s == [] then Ok([])
    else match MatchCounterPlaceholder(s)
      case Some(m) =>
        var padding :- if m.digits.Some? then ParseInt32(m.digits.value) else Ok(3);
        var rest :- CanonicalizeCounters(s[m.length..]);
        Ok("{counter:" + NatToString(padding) + "}" + rest)
      case None =>
        var rest :- CanonicalizeCounters(s[1..]);
        Ok([s[0]] + rest)
  }

  /** What ApplyPattern computes. */
  function ExpandPattern(pattern: string, metadata: Metadata, invalid: set<char>): (r: Result<string, Error>)
    ensures r.Err? ==> r.error == Overflow
    ensures r.Ok? ==> forall i :: 0 <= i < |r.value| ==> r.value[i] !in invalid
    ensures r.Ok? ==> r.value == [] || (!IsWhiteSpace(r.value[0]) && !IsWhiteSpace(r.value[|r.value| - 1]))
  {
    var canonical :- CanonicalizeCounters(SubstituteMetadata(pattern, metadata));
    Ok(SanitizeForFilename(canonical, invalid))
  }

  /**
   * ApplyPattern: substitutes the metadata entries one after the other, puts
   * the counter placeholders in canonical form and sanitises the result.
   */
  method ApplyPattern(pattern: string, metadata: Metadata, invalid: set<char>) returns (r: Result<string, Error>)
    ensures r == ExpandPattern(pattern, metadata, invalid)
    ensures r.Err? ==> r.error == Overflow
    ensures r.Ok? ==> forall i :: 0 <= i < |r.value| ==> r.value[i] !in invalid
  {
    var result := pattern;
    var i := 0;
    while i < |metadata|
      invariant 0 <= i <= |metadata|
      invariant SubstituteMetadata(result, metadata[i..]) == SubstituteMetadata(pattern, metadata)
    {
      assert metadata[i..][1..] == metadata[i + 1..];
      result := Replace(result, "{" + metadata[i].0 + "}", metadata[i].1, true);
      i := i + 1;
    }
    assert metadata[i..] == [];
    var canonical := CanonicalizeCounters(result);
    if canonical.Err? {
      return Err(canonical.error);
    }
    r := Ok(SanitizeForFilename(canonical.value, invalid));
  }

  // ===========================================================================
  // GeneratePreview
  // ===========================================================================

  /** A match of \{counter:(\d+)\}: the matched text and its digits. */
  datatype CounterToken = CounterToken(text: string, digits: string)

  /** A {counter:N} token starts at s[i]. */
  predicate TokenAt(s: string, i: nat)
    requires i <= |s|
  {
    var m := MatchCounterPlaceholder(s[i..]);
    m.Some? && m.value.digits.Some?
  }

  /** The digits of the token that starts at s[i]. */
  function TokenDigits(s: string, i: nat): string
    requires i <= |s| && TokenAt(s, i)
  {
    MatchCounterPlaceholder(s[i..]).value.digits.value
  }

  /** Regex.Match(name, @"\{counter:(\d+)\}"): the leftmost {counter:N} token. */
  function FirstCounterToken(s: string): (t: Option<CounterToken>)
    ensures t.Some? ==>
      && |t.value.digits| > 0 && AllDigits(t.value.digits)
      && t.value.text == "{counter:" + t.value.digits + "}"
    decreases |s|
  {
    if s == [] then None
    else match MatchCounterPlaceholder(s)
      case Some(CounterMatch(_, Some(d))) => Some(CounterToken("{counter:" + d + "}", d))
      case _ => FirstCounterToken(s[1..])
  }

  /**
   * The token found is the leftmost one: nothing is found exactly when no
   * token starts anywhere, and otherwise the token found starts at some i
   * and no token starts before i.
   */
  lemma {:induction false} FirstCounterTokenLeftmost(s: string)
    ensures FirstCounterToken(s).None? <==> forall i :: 0 <= i < |s| ==> !TokenAt(s, i)
    ensures FirstCounterToken(s).Some? ==>
      exists i :: 0 <= i < |s| && TokenAt(s, i) && TokenDigits(s, i) == FirstCounterToken(s).value.digits
        && forall j :: 0 <= j < i ==> !TokenAt(s, j)
    decreases |s|
  {
    if s != [] {
      assert s[0..] == s;
      if !TokenAt(s, 0) {
        var tail := s[1..];
        FirstCounterTokenLeftmost(tail);
        assert FirstCounterToken(s) == FirstCounterToken(tail);
        forall i | 0 <= i < |tail|
          ensures TokenAt(tail, i) == TokenAt(s, i + 1)
          ensures TokenAt(tail, i) ==> TokenDigits(tail, i) == TokenDigits(s, i + 1)
        {
          assert tail[i..] == s[i + 1..];
        }
        if FirstCounterToken(s).Some? {
          var i :| 0 <= i < |tail| && TokenAt(tail, i) && TokenDigits(tail, i) == FirstCounterToken(s).value.digits
            && forall j :: 0 <= j < i ==> !TokenAt(tail, j);
          forall j | 0 <= j < i + 1
            ensures !TokenAt(s, j)
          {
            if j > 0 {
              assert !TokenAt(tail, j - 1);
            }
          }
        } else {
          forall i | 0 <= i < |s|
            ensures !TokenAt(s, i)
          {
            if i > 0 {
              assert !TokenAt(tail, i - 1);
            }
          }
        }
      }
    }
  }

  /** The token comes from the text, so the text contains "{counter:". */
  lemma {:induction false} FirstCounterTokenContains(s: string)
    requires FirstCounterToken(s).Some?
    ensures Contains(s, "{counter:")
    decreases |s|
  {
    match MatchCounterPlaceholder(s)
    case Some(CounterMatch(_, Some(d))) =>
      assert StartsWith(s[0..], "{counter:", false);
    case _ =>
      FirstCounterTokenContains(s[1..]);
      var i :| 0 <= i <= |s[1..]| && StartsWith(s[1..][i..], "{counter:", false);
      assert s[1..][i..] == s[i + 1..];
  }

  /**
   * The counter step of GeneratePreview: every occurrence of the first
   * {counter:N} token becomes the counter zero-padded to N digits.
   */
  function ApplyCounter(name: string, counter: nat): (r: Result<string, Error>)
    ensures r.Err? ==> r.error == Overflow
    ensures r.Err? <==> FirstCounterToken(name).Some? && DigitsValue(FirstCounterToken(name).value.digits) > Int32MaxValue
  {
    match FirstCounterToken(name)
    case None => Ok(name)
    case Some(token) =>
      var padding :- ParseInt32(token.digits);
      Ok(Replace(name, token.text, PadLeft(counter, padding), false))
  }

  /**
   * The counter block of GeneratePreview's loop: when the name contains
   * "{counter:" and Regex.Match finds a {counter:N} token, every occurrence of
   * that token becomes the counter padded to N digits, and the counter advances.
   */
  method MaterializeCounter(name: string, counter: nat) returns (r: Result<string, Error>, advanced: bool)
    ensures r == ApplyCounter(name, counter)
    ensures r.Ok? ==> (advanced <==> FirstCounterToken(name).Some?)
  {
    r, advanced := Ok(name), false;
    if Contains(name, "{counter:") {
      var token := FirstCounterToken(name);
      if token.Some? {
        var padding := ParseInt32(token.value.digits);
        if padding.Err? {
          return Err(padding.error), false;
        }
        r := Ok(Replace(name, token.value.text, PadLeft(counter, padding.value), false));
        advanced := true;
      }
    } else if FirstCounterToken(name).Some? {
      FirstCounterTokenContains(name);
    }
  }

  /** What ApplyPattern returns for each scanned file, in scan order. */
  function ExpandAll(files: seq<FileInfo>, pattern: string, invalid: set<char>): (r: seq<Result<string, Error>>)
    ensures |r| == |files|
    ensures forall j :: 0 <= j < |r| && r[j].Err? ==> r[j].error == Overflow
  {
    if files == [] then []
    else [ExpandPattern(pattern, files[0].metadata, invalid)] + ExpandAll(files[1..], pattern, invalid)
  }

  lemma {:induction false} ExpandAllAt(files: seq<FileInfo>, pattern: string, invalid: set<char>, j: nat)
    requires j < |files|
    ensures ExpandAll(files, pattern, invalid)[j] == ExpandPattern(pattern, files[j].metadata, invalid)
    decreases j
  {
    if j > 0 {
      ExpandAllAt(files[1..], pattern, invalid, j - 1);
      assert files[1..][j - 1] == files[j];
    }
  }

  /** The expanded name of a file advances the counter when it holds a {counter:N} token. */
  predicate UsesCounter(expanded: Result<string, Error>)
  {
    expanded.Ok? && FirstCounterToken(expanded.value).Some?
  }

  /** GeneratePreview throws on a file with this expansion (int.Parse overflow in either step). */
  predicate Fails(expanded: Result<string, Error>)
  {
    expanded.Err? || ApplyCounter(expanded.value, 1).Err?
  }

  /** Whether the counter step throws does not depend on the counter's value. */
  lemma ApplyCounterFailsAlike(name: string, c: nat, d: nat)
    ensures ApplyCounter(name, c).Err? <==> ApplyCounter(name, d).Err?
  {
  }

  /** The counter value when file i is reached: one more than the earlier files that used it. */
  function CounterBefore(expansions: seq<Result<string, Error>>, i: nat): nat
    requires i <= |expansions|
  {
    if i == 0 then 1
    else CounterBefore(expansions, i - 1) + (if UsesCounter(expansions[i - 1]) then 1 else 0)
  }

  /** The new name of file i. */
  function NewNameAt(files: seq<FileInfo>, expansions: seq<Result<string, Error>>, i: nat): string
    requires i < |files| == |expansions| && !Fails(expansions[i])
  {
    ApplyCounterFailsAlike(expansions[i].value, 1, CounterBefore(expansions, i));
    ApplyCounter(expansions[i].value, CounterBefore(expansions, i)).value + files[i].extension
  }

  /** The fields an item copies from its file. */
  predicate Describes(item: RenamePreviewItem, file: FileInfo)
  {
    && item.originalName == file.name
    && item.fullPath == file.fullPath
    && item.relativePath == file.relativePath
    && item.isSelected == file.isSelected
  }

  /**
   * Item i conflicts when an earlier item got the same new name ignoring case,
   * or when its name changes and a file of the new name exists in the scan root.
   */
  predicate ConflictAt(items: seq<RenamePreviewItem>, i: nat, folderPath: string, occupied: set<(string, string)>)
    requires i < |items|
  {
    || (exists j :: 0 <= j < i && EqualsIgnoreCase(items[j].newName, items[i].newName))
    || (items[i].newName != items[i].originalName && (folderPath, items[i].newName) in occupied)
  }

  /** items is the preview of files, given each file's expansion: one item per file, in order. */
  ghost predicate IsPreview(items: seq<RenamePreviewItem>, files: seq<FileInfo>, expansions: seq<Result<string, Error>>,
                            folderPath: string, occupied: set<(string, string)>)
  {
    && |items| == |files| == |expansions|
    && (forall j :: 0 <= j < |files| ==> !Fails(expansions[j]))
    && (forall i :: 0 <= i < |files| ==> Describes(items[i], files[i]))
    && (forall i :: 0 <= i < |files| ==> items[i].newName == NewNameAt(files, expansions, i))
    && (forall i :: 0 <= i < |files| ==> (items[i].hasConflict <==> ConflictAt(items, i, folderPath, occupied)))
  }

  /** The variables of GeneratePreview's loop: the items so far, the HashSet of folded names, the counter. */
  datatype PreviewState = PreviewState(items: seq<RenamePreviewItem>, seen: set<string>, counter: nat)

  /** One turn of GeneratePreview's loop, for a file and what ApplyPattern returned for it. */
  function PreviewStep(st: PreviewState, file: FileInfo, expanded: Result<string, Error>,
                       folderPath: string, occupied: set<(string, string)>): Result<PreviewState, Error>
  {
    var e :- expanded;
    var named :- ApplyCounter(e, st.counter);
    var newName := named + file.extension;
    var hasConflict := FoldCase(newName) in st.seen || (newName != file.name && (folderPath, newName) in occupied);
    Ok(PreviewState(
      st.items + [RenamePreviewItem(file.name, newName, file.fullPath, file.relativePath, hasConflict, file.isSelected)],
      st.seen + {FoldCase(newName)},
      if UsesCounter(expanded) then st.counter + 1 else st.counter))
  }

  /** The loop state after the first i files, or the exception that ended it. */
  function PreviewUpTo(files: seq<FileInfo>, expansions: seq<Result<string, Error>>, i: nat,
                       folderPath: string, occupied: set<(string, string)>): Result<PreviewState, Error>
    requires i <= |files| == |expansions|
  {
    if i == 0 then Ok(PreviewState([], {}, 1))
    else
      var st :- PreviewUpTo(files, expansions, i - 1, folderPath, occupied);
      PreviewStep(st, files[i - 1], expansions[i - 1], folderPath, occupied)
  }

  /** Once the loop has thrown, it stays thrown. */
  lemma {:induction false} PreviewErrorSticks(files: seq<FileInfo>, expansions: seq<Result<string, Error>>, i: nat, k: nat,
                                              folderPath: string, occupied: set<(string, string)>)
    requires i <= k <= |files| == |expansions|
    requires PreviewUpTo(files, expansions, i, folderPath, occupied).Err?
    ensures PreviewUpTo(files, expansions, k, folderPath, occupied) == PreviewUpTo(files, expansions, i, folderPath, occupied)
    decreases k
  {
    if k > i {
      PreviewErrorSticks(files, expansions, i, k - 1, folderPath, occupied);
    }
  }

  /** What the loop state after i files means, in closed form. */
  ghost predicate PreviewInvariant(st: PreviewState, files: seq<FileInfo>, expansions: seq<Result<string, Error>>, i: nat,
                                   folderPath: string, occupied: set<(string, string)>)
    requires i <= |files| == |expansions|
  {
    && NamesFollow(st.items, files, expansions, i)
    && st.counter == CounterBefore(expansions, i)
    && ConflictsMarked(st.items, st.seen, folderPath, occupied)
  }

  /** The items are the first i files, renamed to their new names (none of those files fails). */
  ghost predicate NamesFollow(items: seq<RenamePreviewItem>, files: seq<FileInfo>, expansions: seq<Result<string, Error>>, i: nat)
    requires i <= |files| == |expansions|
  {
    && |items| == i
    && (forall j :: 0 <= j < i ==> !Fails(expansions[j]))
    && (forall j :: 0 <= j < i ==> Describes(items[j], files[j]))
    && (forall j :: 0 <= j < i ==> items[j].newName == NewNameAt(files, expansions, j))
  }

  /** Recording the item for file i extends the renamed prefix by one. */
  lemma NamesFollowStep(items: seq<RenamePreviewItem>, item: RenamePreviewItem, files: seq<FileInfo>,
                        expansions: seq<Result<string, Error>>, i: nat)
    requires i < |files| == |expansions|
    requires NamesFollow(items, files, expansions, i)
    requires !Fails(expansions[i]) && Describes(item, files[i]) && item.newName == NewNameAt(files, expansions, i)
    ensures NamesFollow(items + [item], files, expansions, i + 1)
  {
    var longer := items + [item];
    forall j | 0 <= j < i
      ensures longer[j] == items[j]
    {
    }
    assert longer[i] == item;
  }

  /** Each item's flag says whether it conflicts, and seen holds the folded names of the items. */
  ghost predicate ConflictsMarked(items: seq<RenamePreviewItem>, seen: set<string>, folderPath: string, occupied: set<(string, string)>)
  {
    && seen == (set j | 0 <= j < |items| :: FoldCase(items[j].newName))
    && forall j :: 0 <= j < |items| ==> (items[j].hasConflict <==> ConflictAt(items, j, folderPath, occupied))
  }

  /** A name is in the HashSet of folded names exactly when an earlier name equals it ignoring case. */
  lemma SeenIffEarlierMatch(items: seq<RenamePreviewItem>, seen: set<string>, name: string)
    requires seen == set j | 0 <= j < |items| :: FoldCase(items[j].newName)
    ensures FoldCase(name) in seen <==> exists j :: 0 <= j < |items| && EqualsIgnoreCase(items[j].newName, name)
  {
    if FoldCase(name) in seen {
      var j :| 0 <= j < |items| && FoldCase(items[j].newName) == FoldCase(name);
      EqualsIgnoreCaseIffFolded(items[j].newName, name);
    }
    if exists j :: 0 <= j < |items| && EqualsIgnoreCase(items[j].newName, name) {
      var j :| 0 <= j < |items| && EqualsIgnoreCase(items[j].newName, name);
      EqualsIgnoreCaseIffFolded(items[j].newName, name);
      assert FoldCase(items[j].newName) in seen;
    }
  }

  /** Adding an item's folded name to the set keeps it the set of the items' folded names. */
  lemma SeenExtends(items: seq<RenamePreviewItem>, seen: set<string>, item: RenamePreviewItem)
    requires seen == set j | 0 <= j < |items| :: FoldCase(items[j].newName)
    ensures seen + {FoldCase(item.newName)} == set j | 0 <= j < |items + [item]| :: FoldCase((items + [item])[j].newName)
  {
    var longer := items + [item];
    var grown := set j | 0 <= j < |longer| :: FoldCase(longer[j].newName);
    forall n | n in grown
      ensures n in seen + {FoldCase(item.newName)}
    {
      var j :| 0 <= j < |longer| && FoldCase(longer[j].newName) == n;
      if j < |items| {
        assert longer[j] == items[j];
      }
    }
    forall n | n in seen
      ensures n in grown
    {
      var j :| 0 <= j < |items| && FoldCase(items[j].newName) == n;
      assert longer[j] == items[j];
    }
    assert longer[|items|] == item;
  }

  /** Recording an item flagged the way GeneratePreview flags it keeps the flags and the set right. */
  lemma AppendKeepsConflictsMarked(items: seq<RenamePreviewItem>, seen: set<string>, item: RenamePreviewItem,
                                   folderPath: string, occupied: set<(string, string)>)
    requires ConflictsMarked(items, seen, folderPath, occupied)
    requires item.hasConflict <==>
      FoldCase(item.newName) in seen || (item.newName != item.originalName && (folderPath, item.newName) in occupied)
    ensures ConflictsMarked(items + [item], seen + {FoldCase(item.newName)}, folderPath, occupied)
  {
    var longer := items + [item];
    SeenIffEarlierMatch(items, seen, item.newName);
    SeenExtends(items, seen, item);
    PrefixKeepsConflicts(items, item, folderPath, occupied);
    forall j | 0 <= j < |items|
      ensures longer[j] == items[j]
    {
    }
    assert longer[|items|] == item;
  }

  /** One turn of the loop keeps the closed form. */
  lemma PreviewStepKeeps(st: PreviewState, files: seq<FileInfo>, expansions: seq<Result<string, Error>>, i: nat,
                         folderPath: string, occupied: set<(string, string)>)
    requires i < |files| == |expansions|
    requires expansions[i].Err? ==> expansions[i].error == Overflow
    requires PreviewInvariant(st, files, expansions, i, folderPath, occupied)
    ensures PreviewStep(st, files[i], expansions[i], folderPath, occupied).Ok? <==> !Fails(expansions[i])
    ensures PreviewStep(st, files[i], expansions[i], folderPath, occupied).Err? ==>
      PreviewStep(st, files[i], expansions[i], folderPath, occupied).error == Overflow
    ensures PreviewStep(st, files[i], expansions[i], folderPath, occupied).Ok? ==>
      PreviewInvariant(PreviewStep(st, files[i], expansions[i], folderPath, occupied).value, files, expansions, i + 1, folderPath, occupied)
  {
    var expanded := expansions[i];
    if expanded.Ok? {
      ApplyCounterFailsAlike(expanded.value, 1, st.counter);
    }
    if !Fails(expanded) {
      var file := files[i];
      var newName := NewNameAt(files, expansions, i);
      var hasConflict := FoldCase(newName) in st.seen || (newName != file.name && (folderPath, newName) in occupied);
      var item := RenamePreviewItem(file.name, newName, file.fullPath, file.relativePath, hasConflict, file.isSelected);
      var next := PreviewState(st.items + [item], st.seen + {FoldCase(newName)}, CounterBefore(expansions, i + 1));
      assert PreviewStep(st, file, expanded, folderPath, occupied) == Ok(next);
      AppendKeepsConflictsMarked(st.items, st.seen, item, folderPath, occupied);
      NamesFollowStep(st.items, item, files, expansions, i);
    }
  }

  /** PreviewUpTo succeeds exactly when no file among the first i fails, and then it has the closed form. */
  lemma {:induction false} PreviewUpToMeaning(files: seq<FileInfo>, expansions: seq<Result<string, Error>>, i: nat,
                                              folderPath: string, occupied: set<(string, string)>)
    requires i <= |files| == |expansions|
    requires forall j :: 0 <= j < |expansions| && expansions[j].Err? ==> expansions[j].error == Overflow
    ensures PreviewUpTo(files, expansions, i, folderPath, occupied).Ok? <==> forall j :: 0 <= j < i ==> !Fails(expansions[j])
    ensures PreviewUpTo(files, expansions, i, folderPath, occupied).Err? ==>
      PreviewUpTo(files, expansions, i, folderPath, occupied).error == Overflow
    ensures PreviewUpTo(files, expansions, i, folderPath, occupied).Ok? ==>
      PreviewInvariant(PreviewUpTo(files, expansions, i, folderPath, occupied).value, files, expansions, i, folderPath, occupied)
  {
    if i > 0 {
      PreviewUpToMeaning(files, expansions, i - 1, folderPath, occupied);
      var prev := PreviewUpTo(files, expansions, i - 1, folderPath, occupied);
      if prev.Ok? {
        assert PreviewUpTo(files, expansions, i, folderPath, occupied)
          == PreviewStep(prev.value, files[i - 1], expansions[i - 1], folderPath, occupied);
        PreviewStepKeeps(prev.value, files, expansions, i - 1, folderPath, occupied);
      } else {
        assert PreviewUpTo(files, expansions, i, folderPath, occupied) == prev;
      }
    }
  }

  /** What GeneratePreview returns for the scanned files, given each file's expansion. */
  function Preview(files: seq<FileInfo>, expansions: seq<Result<string, Error>>,
                   folderPath: string, occupied: set<(string, string)>): Result<seq<RenamePreviewItem>, Error>
    requires |files| == |expansions|
  {
    var st :- PreviewUpTo(files, expansions, |files|, folderPath, occupied);
    Ok(st.items)
  }

  /**
   * What a preview result must be: an error exactly when some file fails,
   * always an overflow, and otherwise the closed-form preview of the files.
   */
  ghost predicate PreviewSpec(r: Result<seq<RenamePreviewItem>, Error>, files: seq<FileInfo>,
                              expansions: seq<Result<string, Error>>, folderPath: string, occupied: set<(string, string)>)
    requires |files| == |expansions|
  {
    && (r.Err? <==> exists i :: 0 <= i < |files| && Fails(expansions[i]))
    && (r.Err? ==> r.error == Overflow)
    && (r.Ok? ==> IsPreview(r.value, files, expansions, folderPath, occupied))
  }

  /** The fold meets the closed-form description of the preview. */
  lemma PreviewMeaning(files: seq<FileInfo>, expansions: seq<Result<string, Error>>,
                       folderPath: string, occupied: set<(string, string)>)
    requires |files| == |expansions|
    requires forall j :: 0 <= j < |expansions| && expansions[j].Err? ==> expansions[j].error == Overflow
    ensures PreviewSpec(Preview(files, expansions, folderPath, occupied), files, expansions, folderPath, occupied)
  {
    PreviewUpToMeaning(files, expansions, |files|, folderPath, occupied);
  }

  /** The body of GeneratePreview's loop: names one file and records the name. */
  method PreviewFile(st: PreviewState, file: FileInfo, expanded: Result<string, Error>,
                     folderPath: string, occupied: set<(string, string)>) returns (r: Result<PreviewState, Error>)
    ensures r == PreviewStep(st, file, expanded, folderPath, occupied)
  {
    if expanded.Err? {
      return Err(expanded.error);
    }
    var named, advanced := MaterializeCounter(expanded.value, st.counter);
    if named.Err? {
      return Err(named.error);
    }
    var counter := if advanced then st.counter + 1 else st.counter;
    var newName := named.value + file.extension;
    var hasConflict := FoldCase(newName) in st.seen || (newName != file.name && (folderPath, newName) in occupied);
    r := Ok(PreviewState(
      st.items + [RenamePreviewItem(file.name, newName, file.fullPath, file.relativePath, hasConflict, file.isSelected)],
      st.seen + {FoldCase(newName)},
      counter));
  }

  /** What GeneratePreview returns: the scan's exception, or the preview of the scanned files. */
  function PreviewOfFolder(folderPath: string, pattern: string, extensions: Option<seq<string>>,
                           disk: Disk, invalid: set<char>): Result<seq<RenamePreviewItem>, Error>
  {
    var files :- ScanFolder(folderPath, extensions, disk);
    Preview(files, ExpandAll(files, pattern, invalid), folderPath, disk.occupied)
  }

  /**
   * GeneratePreview fails with the scan's exception when the folder is
   * missing; otherwise it fails exactly when some scanned file fails (always
   * an overflow) and else returns the preview of the scanned files in closed form.
   */
  lemma PreviewOfFolderMeaning(folderPath: string, pattern: string, extensions: Option<seq<string>>,
                               disk: Disk, invalid: set<char>)
    ensures ScanFolder(folderPath, extensions, disk).Err? ==>
      PreviewOfFolder(folderPath, pattern, extensions, disk, invalid) == Err(ScanFolder(folderPath, extensions, disk).error)
    ensures ScanFolder(folderPath, extensions, disk).Ok? ==>
      var files := ScanFolder(folderPath, extensions, disk).value;
      PreviewSpec(PreviewOfFolder(folderPath, pattern, extensions, disk, invalid),
                  files, ExpandAll(files, pattern, invalid), folderPath, disk.occupied)
  {
    var scan := ScanFolder(folderPath, extensions, disk);
    if scan.Ok? {
      PreviewMeaning(scan.value, ExpandAll(scan.value, pattern, invalid), folderPath, disk.occupied);
    }
  }

  /**
   * GeneratePreview: scans the folder, then names each file in scan order with
   * a running counter and a case-insensitive set of the names produced so far.
   */
  method GeneratePreview(folderPath: string, pattern: string, extensions: Option<seq<string>>,
                         disk: Disk, invalid: set<char>)
    returns (r: Result<seq<RenamePreviewItem>, Error>)
    ensures r == PreviewOfFolder(folderPath, pattern, extensions, disk, invalid)
  {
    var scan := ScanFolder(folderPath, extensions, disk);
    if scan.Err? {
      return Err(scan.error);
    }
    var files := scan.value;
    ghost var expansions := ExpandAll(files, pattern, invalid);
    assert PreviewOfFolder(folderPath, pattern, extensions, disk, invalid) == Preview(files, expansions, folderPath, disk.occupied);
    var st := PreviewState([], {}, 1);
    var i := 0;
    while i < |files|
      invariant 0 <= i <= |files|
      invariant PreviewUpTo(files, expansions, i, folderPath, disk.occupied) == Ok(st)
    {
      ExpandAllAt(files, pattern, invalid, i);
      var expanded := ApplyPattern(pattern, files[i].metadata, invalid);
      var next := PreviewFile(st, files[i], expanded, folderPath, disk.occupied);
      assert PreviewUpTo(files, expansions, i + 1, folderPath, disk.occupied) == next;
      if next.Err? {
        PreviewErrorSticks(files, expansions, i + 1, |files|, folderPath, disk.occupied);
        assert Preview(files, expansions, folderPath, disk.occupied) == Err(next.error);
        return Err(next.error);
      }
      st := next.value;
      i := i + 1;
    }
    r := Ok(st.items);
    assert Preview(files, expansions, folderPath, disk.occupied) == r;
  }

  /** Appending an item does not change which earlier items conflict. */
  lemma PrefixKeepsConflicts(items: seq<RenamePreviewItem>, item: RenamePreviewItem,
                             folderPath: string, occupied: set<(string, string)>)
    ensures forall j :: 0 <= j < |items| ==>
      (ConflictAt(items + [item], j, folderPath, occupied) <==> ConflictAt(items, j, folderPath, occupied))
  {
    var longer := items + [item];
    forall j | 0 <= j < |items|
      ensures ConflictAt(longer, j, folderPath, occupied) <==> ConflictAt(items, j, folderPath, occupied)
    {
      assert forall k :: 0 <= k <= j ==> longer[k] == items[k];
    }
  }

  // ===========================================================================
  // ExecuteRename
  // ===========================================================================

  /** The Where clause of ExecuteRename. */
  predicate ShouldRename(item: RenamePreviewItem)
  {
    item.isSelected && !item.hasConflict && item.originalName != item.newName
  }

  /** items.Where(ShouldRename), in order. */
  function Eligible(items: seq<RenamePreviewItem>): (r: seq<RenamePreviewItem>)
    ensures |r| <= |items|
    ensures forall i :: 0 <= i < |r| ==> ShouldRename(r[i])
  {
    if items == [] then []
    else (if ShouldRename(items[0]) then [items[0]] else []) + Eligible(items[1..])
  }

  /** The filter keeps the eligible items of each part, in order. */
  lemma {:induction false} EligibleAppend(a: seq<RenamePreviewItem>, b: seq<RenamePreviewItem>)
    ensures Eligible(a + b) == Eligible(a) + Eligible(b)
  {
    if a == [] {
      assert a + b == b;
    } else {
      assert (a + b)[0] == a[0];
      assert (a + b)[1..] == a[1..] + b;
      EligibleAppend(a[1..], b);
    }
  }

  function RootLength(path: string): nat
  {
    if |path| > 0 && path[0] == '/' then 1 else 0
  }

  /** while (end > root && !IsDirectorySeparator(path[--end])) ; */
  function SeparatorBefore(path: string, end: nat, root: nat): (r: nat)
    requires root <= end <= |path|
    ensures root <= r <= end
    ensures end > root ==> r < end
    ensures forall j :: r < j < end ==> path[j] != '/'
    ensures r < end && path[r] != '/' ==> r == root
  {
    if end > root then (if path[end - 1] == '/' then end - 1 else SeparatorBefore(path, end - 1, root))
    else end
  }

  /** while (end > root && IsDirectorySeparator(path[end - 1])) end--; */
  function TrimSeparators(path: string, end: nat, root: nat): (r: nat)
    requires root <= end <= |path|
    ensures root <= r <= end
    ensures forall j :: r <= j < end ==> path[j] == '/'
    ensures r > root ==> path[r - 1] != '/'
  {
    if end > root && path[end - 1] == '/' then TrimSeparators(path, end - 1, root) else end
  }

  /** From position n on, no character other than '/' is followed by a '/'. */
  predicate OnlySeparatorsAfterText(path: string, n: nat)
  {
    forall j, k :: n <= j < k < |path| && path[j] != '/' ==> path[k] != '/'
  }

  /**
   * Path.GetDirectoryName on Unix: null when the path is no longer than its
   * root; otherwise the path up to its last separator, without the separators
   * that end it, but never shorter than the root.
   */
  function GetDirectoryName(path: string): (r: Option<string>)
    ensures r.Some? <==> |path| > RootLength(path)
    ensures r.Some? ==> RootLength(path) <= |r.value| < |path| && r.value == path[..|r.value|]
  {
    var root := RootLength(path);
    if |path| <= root then None
    else Some(path[..TrimSeparators(path, SeparatorBefore(path, |path|, root), root)])
  }

  /**
   * The directory GetDirectoryName returns stops before the last run of
   * separators: it ends in a separator only when it is the root, and what
   * follows it is separators and then the last name.
   */
  lemma GetDirectoryNameEnds(path: string)
    requires GetDirectoryName(path).Some?
    ensures var d := GetDirectoryName(path).value;
      && (|d| > RootLength(path) ==> path[|d| - 1] != '/')
      && (|d| == RootLength(path) || path[|d|] == '/')
      && OnlySeparatorsAfterText(path, |d|)
  {
  }

  /** Path.Combine on Unix. */
  function Combine(path1: string, path2: string): (r: string)
    ensures path2 != [] && path2[0] == '/' ==> r == path2
    ensures path2 == [] || path2[0] != '/' ==> |path1| <= |r| && r[..|path1|] == path1
    ensures |path2| <= |r| && r[|r| - |path2|..] == path2
    ensures |r| <= |path1| + 1 + |path2|
    ensures path1 != [] && path2 != [] && path2[0] != '/' ==> |path2| < |r| && r[|r| - |path2| - 1] == '/'
  {
    if path1 == [] then path2
    else if path2 == [] then path1
    else if path2[0] == '/' then path2
    else if path1[|path1| - 1] == '/' then path1 + path2
    else path1 + "/" + path2
  }

  /** Where ExecuteRename moves an item: its own directory, combined with the new name. */
  function TargetPath(item: RenamePreviewItem): string
    requires GetDirectoryName(item.fullPath).Some?
  {
    Combine(GetDirectoryName(item.fullPath).value, item.newName)
  }

  /** The outcome of File.Move(source, destination): done, or the exception's message. */
  datatype MoveOutcome = Moved | MoveFailed(message: string)

  /** The result ExecuteRename reports for the k-th eligible item. */
  ghost predicate ReportsOn(res: RenameResult, item: RenamePreviewItem, dryRun: bool, move: (string, string) -> MoveOutcome)
  {
    && GetDirectoryName(item.fullPath).Some?
    && res.originalPath == item.fullPath
    && res.newPath == TargetPath(item)
    && res.success == (dryRun || move(item.fullPath, TargetPath(item)).Moved?)
    && res.error == (if res.success then None else Some(move(item.fullPath, TargetPath(item)).message))
  }

  /** results and moves are what ExecuteRename has reported and issued for the items done so far. */
  ghost predicate Reported(results: seq<RenameResult>, moves: seq<(string, string)>, done: seq<RenamePreviewItem>,
                           dryRun: bool, move: (string, string) -> MoveOutcome)
  {
    && |results| == |done|
    && (forall k :: 0 <= k < |done| ==> ReportsOn(results[k], done[k], dryRun, move))
    && (dryRun ==> moves == [])
    && (!dryRun ==> |moves| == |done| && forall k :: 0 <= k < |done| ==>
          GetDirectoryName(done[k].fullPath).Some? && moves[k] == (done[k].fullPath, TargetPath(done[k])))
  }

  /** Reporting on one more item, and issuing its move unless it is a dry run. */
  lemma ReportedAppend(results: seq<RenameResult>, moves: seq<(string, string)>, done: seq<RenamePreviewItem>,
                       res: RenameResult, item: RenamePreviewItem, dryRun: bool, move: (string, string) -> MoveOutcome)
    requires Reported(results, moves, done, dryRun, move)
    requires ReportsOn(res, item, dryRun, move)
    ensures Reported(results + [res], if dryRun then moves else moves + [(item.fullPath, TargetPath(item))],
                     done + [item], dryRun, move)
  {
    var results' := results + [res];
    var done' := done + [item];
    assert forall k :: 0 <= k < |done| ==> results'[k] == results[k] && done'[k] == done[k];
    if !dryRun {
      var moves' := moves + [(item.fullPath, TargetPath(item))];
      assert forall k :: 0 <= k < |done| ==> moves'[k] == moves[k];
    }
  }

  /**
   * One turn of the rename loop on an eligible item: None when its path has
   * no directory (Path.Combine then throws); otherwise the result of moving
   * it, or of pretending to in a dry run.
   */
  method RenameItem(item: RenamePreviewItem, dryRun: bool, move: (string, string) -> MoveOutcome)
    returns (res: Option<RenameResult>)
    ensures res.None? <==> GetDirectoryName(item.fullPath).None?
    ensures res.Some? ==> ReportsOn(res.value, item, dryRun, move)
  {
    var directory := GetDirectoryName(item.fullPath);
    if directory.None? {
      return None;
    }
    var newPath := Combine(directory.value, item.newName);
    var outcome := Moved;
    if !dryRun {
      outcome := move(item.fullPath, newPath);
    }
    res := if outcome.Moved? then Some(RenameResult(item.fullPath, newPath, true, None))
           else Some(RenameResult(item.fullPath, newPath, false, Some(outcome.message)));
  }

  /** When the item at i is eligible, the eligible items so far begin the whole filtered sequence. */
  lemma EligibleThrough(items: seq<RenamePreviewItem>, i: nat, done: seq<RenamePreviewItem>)
    requires i < |items| && Eligible(items[..i + 1]) == done + [items[i]]
    ensures |done| < |Eligible(items)| && Eligible(items)[|done|] == items[i]
    ensures forall k :: 0 <= k < |done| ==> Eligible(items)[k] == done[k]
  {
    assert items == items[..i + 1] + items[i + 1..];
    EligibleAppend(items[..i + 1], items[i + 1..]);
  }

  /**
   * ExecuteRename: one result per selected, conflict-free item whose name
   * changes, in input order. A dry run moves nothing and reports success; a
   * failed move is reported and the loop goes on. `moves` lists the moves
   * issued to the file system. An item whose path has no directory part makes
   * Path.Combine throw, which ends the whole call.
   */
  method ExecuteRename(items: seq<RenamePreviewItem>, dryRun: bool, move: (string, string) -> MoveOutcome)
    returns (r: Result<seq<RenameResult>, Error>, moves: seq<(string, string)>)
    ensures var todo := Eligible(items);
      && (r.Err? <==> exists k :: 0 <= k < |todo| && GetDirectoryName(todo[k].fullPath).None?)
      && (r.Err? ==> r.error == ArgumentNull)
      && (r.Ok? ==> |r.value| == |todo| && forall k :: 0 <= k < |todo| ==> ReportsOn(r.value[k], todo[k], dryRun, move))
    ensures dryRun ==> moves == []
    ensures var todo := Eligible(items);
      !dryRun ==>
        && |moves| <= |todo|
        && (r.Ok? ==> |moves| == |todo|)
        && (r.Err? ==> |moves| < |todo| && GetDirectoryName(todo[|moves|].fullPath).None?)
        && forall k :: 0 <= k < |moves| ==> GetDirectoryName(todo[k].fullPath).Some? && moves[k] == (todo[k].fullPath, TargetPath(todo[k]))
  {
    var results: seq<RenameResult> := [];
    moves := [];
    var i := 0;
    ghost var done: seq<RenamePreviewItem> := [];
    while i < |items|
      invariant 0 <= i <= |items|
      invariant Eligible(items[..i]) == done
      invariant Reported(results, moves, done, dryRun, move)
    {
      var item := items[i];
      assert items[..i + 1] == items[..i] + [item];
      EligibleAppend(items[..i], [item]);
      if ShouldRename(item) {
        var res := RenameItem(item, dryRun, move);
        if res.None? {
          EligibleThrough(items, i, done);
          return Err(ArgumentNull), moves;
        }
        ReportedAppend(results, moves, done, res.value, item, dryRun, move);
        results := results + [res.value];
        if !dryRun {
          moves := moves + [(item.fullPath, res.value.newPath)];
        }
        done := done + [item];
      }
      i := i + 1;
    }
    assert items[..i] == items;
    r := Ok(results);
  }

  // ===========================================================================
  // GetPatternTemplates
  // ===========================================================================

  /** The built-in rename patterns offered as templates. */
  function GetPatternTemplates(): (r: seq<RenamePattern>)
    ensures |r| == 6
    ensures forall i :: 0 <= i < |r| ==> r[i].pattern != [] && r[i].description != []
  {
    [
      RenamePattern("{year}-{month}-{day}_{filename}", "Date prefix: 2024-01-15_photo"),
      RenamePattern("{date_taken}_{time_taken}_{filename}", "EXIF date/time: 2024-01-15_14-30-00_photo"),
      RenamePattern("{year}/{month}/{filename}", "Year/Month folders (use with caution)"),
      RenamePattern("{camera_model}_{date_taken}_{counter:4}", "Camera + date + counter: iPhone_2024-01-15_0001"),
      RenamePattern("{filename}_{counter:3}", "Original name + counter: photo_001"),
      RenamePattern("IMG_{year}{month}{day}_{counter:4}", "Standard format: IMG_20240115_0001")
    ]
  }
}
