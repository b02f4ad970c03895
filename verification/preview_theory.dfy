/**
 * What the scan, the preview and the rename plan promise: the scan keeps
 * exactly the listed files that pass the filter, the counter numbers the
 * files that use it 1, 2, 3, ... in scan order, and the items ExecuteRename
 * acts on never share a new name, ignoring case.
 */
module PreviewTheory {
  import opened Models
  import opened Strings
  import opened FileService
  import opened PatternTheory

  // ---------------------------------------------------------------------------
  // ScanFolder
  // ---------------------------------------------------------------------------

  /** The Where and Select stages keep exactly the listed files that pass the filter. */
  lemma {:induction false} SelectMembers(listing: seq<DiskFile>, extensions: Option<seq<string>>, x: FileInfo)
    ensures x in Select(listing, extensions) <==>
      exists k :: 0 <= k < |listing| && MatchesFilter(listing[k], extensions) && ToFileInfo(listing[k]) == x
  {
    if listing != [] {
      SelectMembers(listing[1..], extensions, x);
      var head := if MatchesFilter(listing[0], extensions) then [ToFileInfo(listing[0])] else [];
      var tail := Select(listing[1..], extensions);
      assert Select(listing, extensions) == head + tail;
      if x in tail {
        var k :| 0 <= k < |listing[1..]| && MatchesFilter(listing[1..][k], extensions) && ToFileInfo(listing[1..][k]) == x;
        assert listing[1..][k] == listing[k + 1];
      }
      if exists k :: 0 <= k < |listing| && MatchesFilter(listing[k], extensions) && ToFileInfo(listing[k]) == x {
        var k :| 0 <= k < |listing| && MatchesFilter(listing[k], extensions) && ToFileInfo(listing[k]) == x;
        if k > 0 {
          assert listing[1..][k - 1] == listing[k];
        }
      }
    }
  }

  /**
   * ScanFolder on an existing folder returns one record per listed file that
   * passes the extension filter, and nothing else.
   */
  lemma ScanFolderMembers(folderPath: string, extensions: Option<seq<string>>, disk: Disk, x: FileInfo)
    requires folderPath in disk.folders
    ensures ScanFolder(folderPath, extensions, disk).Ok?
    ensures |ScanFolder(folderPath, extensions, disk).value| == |Select(disk.folders[folderPath], extensions)|
    ensures x in ScanFolder(folderPath, extensions, disk).value <==>
      exists k :: 0 <= k < |disk.folders[folderPath]|
        && MatchesFilter(disk.folders[folderPath][k], extensions)
        && ToFileInfo(disk.folders[folderPath][k]) == x
  {
    var listing := disk.folders[folderPath];
    var r := ScanFolder(folderPath, extensions, disk).value;
    var selected := Select(listing, extensions);
    assert multiset(r) == multiset(selected);
    assert |r| == |multiset(r)| == |multiset(selected)| == |selected|;
    assert x in r <==> x in multiset(r);
    assert x in selected <==> x in multiset(selected);
    SelectMembers(listing, extensions, x);
  }

  // ---------------------------------------------------------------------------
  // The counter
  // ---------------------------------------------------------------------------

  /** The counter never goes down, and goes up after every file that uses it. */
  lemma {:induction false} CounterGrows(expansions: seq<Result<string, Error>>, i: nat, j: nat)
    requires i <= j <= |expansions|
    ensures CounterBefore(expansions, i) <= CounterBefore(expansions, j)
    ensures i < j && UsesCounter(expansions[i]) ==> CounterBefore(expansions, i) < CounterBefore(expansions, j)
    decreases j
  {
    if i < j {
      CounterGrows(expansions, i, j - 1);
    }
  }

  /** The counter starts at 1 and counts the files before i that use it. */
  lemma {:induction false} CounterCountsUsers(expansions: seq<Result<string, Error>>, i: nat)
    requires i <= |expansions|
    ensures 1 <= CounterBefore(expansions, i) <= i + 1
    ensures (forall j :: 0 <= j < i ==> UsesCounter(expansions[j])) ==> CounterBefore(expansions, i) == i + 1
    ensures (forall j :: 0 <= j < i ==> !UsesCounter(expansions[j])) ==> CounterBefore(expansions, i) == 1
  {
    if i > 0 {
      CounterCountsUsers(expansions, i - 1);
    }
  }

  /**
   * A file whose expanded name holds a {counter:N} token, with no token
   * starting before it, is named with the running counter zero-padded to N
   * digits in that token's place and in the place of every later copy of it,
   * followed by the file's extension.
   */
  lemma NumberedName(files: seq<FileInfo>, expansions: seq<Result<string, Error>>, i: nat,
                     pre: string, d: string, rest: string)
    requires i < |files| == |expansions|
    requires expansions[i] == Ok(pre + WidthToken(d) + rest)
    requires |d| > 0 && AllDigits(d) && DigitsValue(d) <= Int32MaxValue
    requires forall j :: 0 <= j < |pre| ==> !TokenAt(pre + WidthToken(d) + rest, j)
    ensures UsesCounter(expansions[i]) && !Fails(expansions[i])
    ensures NewNameAt(files, expansions, i) ==
      var padded := PadLeft(CounterBefore(expansions, i), DigitsValue(d));
      pre + padded + Replace(rest, WidthToken(d), padded, false) + files[i].extension
  {
    CounterFills(pre, d, rest, 1);
    CounterFills(pre, d, rest, CounterBefore(expansions, i));
  }

  /** Two files that use the counter get different numbers, whatever their widths. */
  lemma DistinctNumbers(expansions: seq<Result<string, Error>>, i: nat, j: nat, width1: int, width2: int)
    requires i < j <= |expansions| && UsesCounter(expansions[i])
    ensures PadLeft(CounterBefore(expansions, i), width1) != PadLeft(CounterBefore(expansions, j), width2)
  {
    CounterGrows(expansions, i, j);
    PadLeftRoundTrip(CounterBefore(expansions, i), width1);
    PadLeftRoundTrip(CounterBefore(expansions, j), width2);
  }

  // ---------------------------------------------------------------------------
  // The rename plan
  // ---------------------------------------------------------------------------

  /** ExecuteRename acts on exactly the selected, conflict-free items whose name changes. */
  lemma {:induction false} EligibleMembers(items: seq<RenamePreviewItem>, x: RenamePreviewItem)
    ensures x in Eligible(items) <==> x in items && ShouldRename(x)
  {
    if items != [] {
      EligibleMembers(items[1..], x);
      assert items == [items[0]] + items[1..];
      assert x in items <==> x == items[0] || x in items[1..];
    }
  }

  /** Eligible of a single item. */
  lemma EligibleOne(item: RenamePreviewItem)
    ensures Eligible([item]) == if ShouldRename(item) then [item] else []
  {
    assert [item][1..] == [];
  }

  /**
   * When the conflict flags are the ones GeneratePreview sets, no two items
   * that ExecuteRename acts on have new names equal ignoring case.
   */
  lemma {:induction false} EligibleNamesDistinct(items: seq<RenamePreviewItem>, folderPath: string,
                                                 occupied: set<(string, string)>)
    requires forall i :: 0 <= i < |items| ==> (items[i].hasConflict <==> ConflictAt(items, i, folderPath, occupied))
    ensures forall p, q :: 0 <= p < q < |Eligible(items)| ==>
      !EqualsIgnoreCase(Eligible(items)[p].newName, Eligible(items)[q].newName)
    decreases |items|
  {
    if items != [] {
      var n := |items| - 1;
      var prefix := items[..n];
      var last := items[n];
      assert items == prefix + [last];
      PrefixKeepsConflicts(prefix, last, folderPath, occupied);
      assert forall i :: 0 <= i < |prefix| ==> prefix[i] == items[i];
      EligibleNamesDistinct(prefix, folderPath, occupied);
      EligibleAppend(prefix, [last]);
      EligibleOne(last);
      var before := Eligible(prefix);
      var all := Eligible(items);
      forall p, q | 0 <= p < q < |all|
        ensures !EqualsIgnoreCase(all[p].newName, all[q].newName)
      {
        assert all[p] == before[p];
        if q == |before| {
          assert all[q] == last && ShouldRename(last);
          EligibleMembers(prefix, before[p]);
          var j :| 0 <= j < |prefix| && prefix[j] == before[p];
          assert items[j] == before[p];
        } else {
          assert all[q] == before[q];
        }
      }
    }
  }

  /** In a preview, no two items that ExecuteRename acts on have new names equal ignoring case. */
  lemma PreviewRenamesDistinct(items: seq<RenamePreviewItem>, files: seq<FileInfo>,
                               expansions: seq<Result<string, Error>>, folderPath: string,
                               occupied: set<(string, string)>)
    requires IsPreview(items, files, expansions, folderPath, occupied)
    ensures forall p, q :: 0 <= p < q < |Eligible(items)| ==>
      !EqualsIgnoreCase(Eligible(items)[p].newName, Eligible(items)[q].newName)
  {
    EligibleNamesDistinct(items, folderPath, occupied);
  }
}
