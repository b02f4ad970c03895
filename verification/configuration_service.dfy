/**
 * The store of user-defined rename patterns (ConfigurationService): a
 * patterns.json file in the user's configuration folder, and a cached list
 * that is read once and then kept in step with every save.
 *
 * The static fields of the service become the fields of a PatternStore
 * object; the content of patterns.json is a field too, so that saves and
 * loads can be stated as changes of state.
 */
module ConfigurationService {
  import opened Models
  import opened Strings
  import FileService

  /** What patterns.json holds, as far as loading it is concerned. */
  datatype StoredFile =
    | Missing                                      // File.Exists is false
    | Unreadable                                   // reading or deserialising throws
    | Stored(patterns: Option<seq<CustomPattern>>) // the deserialised list; None for a JSON null

  /** The list LoadCustomPatterns builds from the file when nothing is cached. */
  function Decode(file: StoredFile): (r: seq<CustomPattern>)
    ensures file.Stored? && file.patterns.Some? ==> r == file.patterns.value
    ensures !(file.Stored? && file.patterns.Some?) ==> r == []
  {
    match file
    case Stored(Some(patterns)) => patterns
    case _ => []
  }

  /** p.Pattern.Equals(pattern, StringComparison.OrdinalIgnoreCase) */
  predicate SamePattern(p: CustomPattern, pattern: string)
  {
    EqualsIgnoreCase(p.pattern, pattern)
  }

  /** patterns.Any(p => SamePattern(p, pattern)) */
  predicate HasMatch(patterns: seq<CustomPattern>, pattern: string)
  {
    exists i :: 0 <= i < |patterns| && SamePattern(patterns[i], pattern)
  }

  /** What patterns.RemoveAll(p => SamePattern(p, pattern)) leaves, in order. */
  function Without(patterns: seq<CustomPattern>, pattern: string): (r: seq<CustomPattern>)
    ensures |r| <= |patterns|
    ensures |r| < |patterns| <==> HasMatch(patterns, pattern)
    ensures !HasMatch(r, pattern)
  {
    if patterns == [] then []
    else
      var rest := Without(patterns[1..], pattern);
      assert HasMatch(patterns, pattern) <==> SamePattern(patterns[0], pattern) || HasMatch(patterns[1..], pattern) by {
        if HasMatch(patterns, pattern) && !SamePattern(patterns[0], pattern) {
          var i :| 0 <= i < |patterns| && SamePattern(patterns[i], pattern);
          assert patterns[1..][i - 1] == patterns[i];
        }
        if HasMatch(patterns[1..], pattern) {
          var i :| 0 <= i < |patterns[1..]| && SamePattern(patterns[1..][i], pattern);
          assert patterns[i + 1] == patterns[1..][i];
        }
      }
      if SamePattern(patterns[0], pattern) then rest
      else
        assert !HasMatch([patterns[0]] + rest, pattern) by {
          forall i | 0 <= i < |[patterns[0]] + rest|
            ensures !SamePattern(([patterns[0]] + rest)[i], pattern)
          {
            if i > 0 {
              assert ([patterns[0]] + rest)[i] == rest[i - 1];
            }
          }
        }
        [patterns[0]] + rest
  }

  /** RemoveAll keeps exactly the patterns that do not match, ignoring case. */
  lemma {:induction false} WithoutMembers(patterns: seq<CustomPattern>, pattern: string, p: CustomPattern)
    ensures p in Without(patterns, pattern) <==> p in patterns && !SamePattern(p, pattern)
  {
    if patterns != [] {
      WithoutMembers(patterns[1..], pattern, p);
      assert patterns == [patterns[0]] + patterns[1..];
      assert p in patterns <==> p == patterns[0] || p in patterns[1..];
    }
  }

  /** On one pattern, RemoveAll drops it when it matches and keeps it otherwise. */
  lemma WithoutOne(p: CustomPattern, pattern: string)
    ensures Without([p], pattern) == if SamePattern(p, pattern) then [] else [p]
  {
    assert [p][1..] == [];
  }

  /**
   * RemoveAll works element by element: on a concatenation it leaves what it
   * leaves of each part, in the same order. With WithoutOne this pins the
   * result down, order and repeats included.
   */
  lemma {:induction false} WithoutAppend(a: seq<CustomPattern>, b: seq<CustomPattern>, pattern: string)
    ensures Without(a + b, pattern) == Without(a, pattern) + Without(b, pattern)
  {
    if a == [] {
      assert a + b == b;
    } else {
      assert (a + b)[0] == a[0];
      assert (a + b)[1..] == a[1..] + b;
      WithoutAppend(a[1..], b, pattern);
    }
  }

  /** Each pattern that does not match is kept as many times as it occurs; the others not at all. */
  lemma {:induction false} WithoutCount(patterns: seq<CustomPattern>, pattern: string, p: CustomPattern)
    ensures multiset(Without(patterns, pattern))[p] == if SamePattern(p, pattern) then 0 else multiset(patterns)[p]
  {
    if patterns != [] {
      WithoutCount(patterns[1..], pattern, p);
      assert patterns == [patterns[0]] + patterns[1..];
      assert multiset(patterns) == multiset([patterns[0]]) + multiset(patterns[1..]);
      if !SamePattern(patterns[0], pattern) {
        var rest := Without(patterns[1..], pattern);
        assert multiset([patterns[0]] + rest) == multiset([patterns[0]]) + multiset(rest);
      }
    }
  }

  /** Removing a pattern that is not there changes nothing. */
  lemma {:induction false} WithoutNoMatch(patterns: seq<CustomPattern>, pattern: string)
    requires !HasMatch(patterns, pattern)
    ensures Without(patterns, pattern) == patterns
  {
    if patterns != [] {
      assert !SamePattern(patterns[0], pattern);
      assert !HasMatch(patterns[1..], pattern) by {
        forall i | 0 <= i < |patterns[1..]|
          ensures !SamePattern(patterns[1..][i], pattern)
        {
          assert patterns[1..][i] == patterns[i + 1];
        }
      }
      WithoutNoMatch(patterns[1..], pattern);
      assert patterns == [patterns[0]] + patterns[1..];
    }
  }

  /** No two custom patterns are equal ignoring case. */
  predicate NoDuplicates(patterns: seq<CustomPattern>)
  {
    forall i, j :: 0 <= i < j < |patterns| ==> !EqualsIgnoreCase(patterns[i].pattern, patterns[j].pattern)
  }

  /** Adding a pattern that does not match any existing one keeps the patterns distinct. */
  lemma AddKeepsNoDuplicates(patterns: seq<CustomPattern>, pattern: string, description: string)
    requires NoDuplicates(patterns) && !HasMatch(patterns, pattern)
    ensures NoDuplicates(patterns + [CustomPattern(pattern, description)])
  {
    var added := patterns + [CustomPattern(pattern, description)];
    forall i, j | 0 <= i < j < |added|
      ensures !EqualsIgnoreCase(added[i].pattern, added[j].pattern)
    {
      assert added[i] == patterns[i];
      if j == |patterns| {
        assert !SamePattern(patterns[i], pattern);
      } else {
        assert added[j] == patterns[j];
      }
    }
  }

  /** Removing patterns keeps the rest distinct. */
  lemma {:induction false} WithoutKeepsNoDuplicates(patterns: seq<CustomPattern>, pattern: string)
    requires NoDuplicates(patterns)
    ensures NoDuplicates(Without(patterns, pattern))
  {
    if patterns != [] {
      var rest := Without(patterns[1..], pattern);
      assert NoDuplicates(patterns[1..]) by {
        forall i, j | 0 <= i < j < |patterns[1..]|
          ensures !EqualsIgnoreCase(patterns[1..][i].pattern, patterns[1..][j].pattern)
        {
          assert patterns[1..][i] == patterns[i + 1] && patterns[1..][j] == patterns[j + 1];
        }
      }
      WithoutKeepsNoDuplicates(patterns[1..], pattern);
      if !SamePattern(patterns[0], pattern) {
        var r := [patterns[0]] + rest;
        forall i, j | 0 <= i < j < |r|
          ensures !EqualsIgnoreCase(r[i].pattern, r[j].pattern)
        {
          assert r[j] == rest[j - 1];
          if i == 0 {
            WithoutMembers(patterns[1..], pattern, rest[j - 1]);
            var k :| 0 <= k < |patterns[1..]| && patterns[1..][k] == rest[j - 1];
            assert patterns[k + 1] == rest[j - 1];
          } else {
            assert r[i] == rest[i - 1];
          }
        }
      }
    }
  }

  /** customPatterns.Select(cp => new RenamePattern(cp.Pattern, cp.Description)) */
  function ToRenamePatterns(patterns: seq<CustomPattern>): (r: seq<RenamePattern>)
    ensures |r| == |patterns|
    ensures forall i :: 0 <= i < |r| ==> r[i].pattern == patterns[i].pattern && r[i].description == patterns[i].description
  {
    if patterns == [] then []
    else [RenamePattern(patterns[0].pattern, patterns[0].description)] + ToRenamePatterns(patterns[1..])
  }

  /** The built-in patterns; the same list FileService offers as templates. */
  function GetDefaultPatterns(): (r: seq<RenamePattern>)
    ensures r == FileService.GetPatternTemplates()
    ensures |r| == 6
    ensures forall i :: 0 <= i < |r| ==> r[i].pattern != [] && r[i].description != []
  {
    [
      RenamePattern("{year}-{month}-{day}_{filename}", "Date prefix: 2024-01-15_photo"),
      RenamePattern("{date_taken}_{time_taken}_{filename}", "EXIF date/time: 2024-01-15_14-30-00_photo"),
      RenamePattern("{year}/{month}/{filename}", "Year/Month folders (use with caution)"),
      RenamePattern("{camera_model}_{date_taken}_{counter:4}", "Camera + date + counter: iPhone_2024-01-15_0001"),
      RenamePattern("{filename}_{counter:3}", "Original name + counter: photo_001"),
      RenamePattern("IMG_{year}{month}{day}_{counter:4}", "Standard format: IMG_20240115_0001")
    ]
  }

  /** The message of the InvalidOperationException for a duplicate pattern. */
  function AlreadyExists(pattern: string): string
  {
    "Pattern '" + pattern + "' already exists"
  }

  /** The service's state: the cached list (_cachedPatterns) and the content of patterns.json. */
  class PatternStore {
    var cache: Option<seq<CustomPattern>>
    var file: StoredFile

    /** A cached list, when there is one, is what the file holds. */
    predicate Consistent()
      reads this
    {
      cache.Some? ==> cache.value == Decode(file)
    }

    /** The service before its first call: nothing cached. */
    constructor(file: StoredFile)
      ensures cache == None && this.file == file
      ensures Consistent()
    {
      cache := None;
      this.file := file;
    }

    /** The custom patterns as the next LoadCustomPatterns will return them. */
    ghost function Current(): seq<CustomPattern>
      reads this
    {
      if cache.Some? then cache.value else Decode(file)
    }

    /**
     * LoadCustomPatterns: the cached list when there is one; otherwise the
     * list read from the file (empty when the file is missing, unreadable or
     * null), which is then cached.
     */
    method LoadCustomPatterns() returns (r: seq<CustomPattern>)
      modifies this
      ensures old(cache).Some? ==> r == old(cache).value
      ensures old(cache).None? ==> r == Decode(file)
      ensures r == old(Current())
      ensures cache == Some(r) && file == old(file)
      ensures old(Consistent()) ==> Consistent()
    {
      if cache.Some? {
        r := cache.value;
        return;
      }
      match file {
        case Missing =>
          r := [];
        case Unreadable =>
          r := [];
        case Stored(patterns) =>
          r := if patterns.Some? then patterns.value else [];
      }
      cache := Some(r);
    }

    /** SaveCustomPatterns: writes the list to the file and caches it. */
    method SaveCustomPatterns(patterns: seq<CustomPattern>)
      modifies this
      ensures file == Stored(Some(patterns)) && cache == Some(patterns)
      ensures Current() == patterns
      ensures Consistent()
    {
      file := Stored(Some(patterns));
      cache := Some(patterns);
    }

    /**
     * AddCustomPattern: throws InvalidOperationException when a pattern equal
     * ignoring case exists, leaving the patterns as loaded; otherwise appends
     * the new pattern and saves.
     */
    method AddCustomPattern(pattern: string, description: string) returns (thrown: Option<Error>)
      modifies this
      ensures HasMatch(old(Current()), pattern) ==>
        && thrown == Some(InvalidOperation(AlreadyExists(pattern)))
        && cache == Some(old(Current())) && file == old(file)
      ensures !HasMatch(old(Current()), pattern) ==>
        && thrown == None
        && Current() == old(Current()) + [CustomPattern(pattern, description)]
        && cache == Some(Current()) && file == Stored(Some(Current()))
      ensures NoDuplicates(old(Current())) ==> NoDuplicates(Current())
      ensures old(Consistent()) ==> Consistent()
    {
      var patterns := LoadCustomPatterns();
      if exists i :: 0 <= i < |patterns| && SamePattern(patterns[i], pattern) {
        return Some(InvalidOperation(AlreadyExists(pattern)));
      }
      ghost var before := patterns;
      patterns := patterns + [CustomPattern(pattern, description)];
      SaveCustomPatterns(patterns);
      if NoDuplicates(before) {
        AddKeepsNoDuplicates(before, pattern, description);
      }
      thrown := None;
    }

    /**
     * RemoveCustomPattern: removes every pattern equal ignoring case; saves
     * and answers true when one was removed, and answers false otherwise.
     */
    method RemoveCustomPattern(pattern: string) returns (removed: bool)
      modifies this
      ensures removed <==> HasMatch(old(Current()), pattern)
      ensures removed ==> Current() == Without(old(Current()), pattern)
      ensures removed ==> cache == Some(Current()) && file == Stored(Some(Current()))
      ensures !removed ==> cache == Some(old(Current())) && file == old(file)
      ensures !HasMatch(Current(), pattern)
      ensures NoDuplicates(old(Current())) ==> NoDuplicates(Current())
      ensures old(Consistent()) ==> Consistent()
    {
      var patterns := LoadCustomPatterns();
      var remaining := Without(patterns, pattern);
      if |remaining| < |patterns| {
        SaveCustomPatterns(remaining);
        if NoDuplicates(patterns) {
          WithoutKeepsNoDuplicates(patterns, pattern);
        }
        return true;
      }
      return false;
    }

    /** GetAllPatterns: the built-in patterns followed by the custom ones, in order. */
    method GetAllPatterns() returns (r: seq<RenamePattern>)
      modifies this
      ensures r == GetDefaultPatterns() + ToRenamePatterns(old(Current()))
      ensures |r| == |GetDefaultPatterns()| + |old(Current())|
      ensures cache == Some(old(Current())) && file == old(file)
      ensures old(Consistent()) ==> Consistent()
    {
      var custom := LoadCustomPatterns();
      r := GetDefaultPatterns() + ToRenamePatterns(custom);
    }

    /** ClearCache: the next load reads the file again. */
    method ClearCache()
      modifies this
      ensures cache == None && file == old(file)
      ensures Current() == Decode(file)
      ensures Consistent()
      ensures old(Consistent()) ==> Current() == old(Current())
    {
      cache := None;
    }
  }
}
