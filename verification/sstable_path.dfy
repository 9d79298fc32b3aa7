/** Decomposition of an SSTable path of the shape
    `/.../<keyspace>/<table>-<id>/<sstable file>[:level=<n>]`
    into a (keyspace, table) location and an (SSTable name, level) pair
    (`parse_sstable_path` and `parse_sstable_name`). */
module SSTablePath {
  import opened Wrappers
  import opened Errors
  import opened Strings

  datatype Location = Location(keyspace: string, table: string)

  /** The marker in a component file name that ends the SSTable's own name. */
  const DataMarker: string := "-Data"

  /** The suffix Cassandra appends to a listed SSTable to give its level. */
  const LevelMarker: string := ":level="

  // ---------------------------------------------------------------------------
  // parse_sstable_path
  // ---------------------------------------------------------------------------

  /** The table name inside a table directory `<table>-<id>`: the text before
      the first `-`, which is the whole directory name when it has no `-`. */
  function TableName(dir: string): string
  {
    Split(dir, "-")[0]
  }

  /** `parse_sstable_path`: the keyspace is the third-from-last `/` component
      and the table comes from the second-from-last. A path with fewer than
      three components (fewer than two `/`) raises; no other path does, since
      splitting the table directory always yields at least one piece. */
  function ParseSSTablePath(path: string): (r: Result<Location, Error>)
    ensures r.Failure? <==> Count(path, '/') < 2
    ensures r.Failure? ==> r.error == InvalidPath(path)
    ensures r.Success? ==> '/' !in r.value.keyspace && '/' !in r.value.table && '-' !in r.value.table
  {
    var parts := Split(path, "/");
    SplitLength(path, '/');
    if |parts| < 3 then Failure(InvalidPath(path))
    else
      SplitPiecesLack(path, '/');
      TableNameSpec(parts[|parts| - 2]);
      Success(Location(parts[|parts| - 3], TableName(parts[|parts| - 2])))
  }

  /** The table is the part of the directory name before its first `-`: a
      prefix free of `-` that is the whole name or is followed by `-`. */
  lemma TableNameSpec(dir: string)
    ensures var t := TableName(dir);
      && |t| <= |dir| && t == dir[..|t|]
      && '-' !in t
      && (t == dir || dir[|t|] == '-')
  {
    FirstPiece(dir, "-");
    ContainsSingle(TableName(dir), '-');
  }

  /** ...and it is the only such prefix, so the table name may be empty
      (a directory name starting with `-`) but is never ambiguous. */
  lemma TableNameUnique(dir: string, t: string)
    requires |t| <= |dir| && t == dir[..|t|]
    requires '-' !in t
    requires t == dir || dir[|t|] == '-'
    ensures TableName(dir) == t
  {
    TableNameSpec(dir);
  }

  /** `path` is `dirs`, then `keyspace`, `dir` and `file` joined by `/`,
      where `dirs` is empty or ends in `/` and the other three have no `/`. */
  predicate ComponentsOf(path: string, dirs: string, keyspace: string, dir: string, file: string)
  {
    && (dirs == "" || dirs[|dirs| - 1] == '/')
    && '/' !in keyspace && '/' !in dir && '/' !in file
    && path == dirs + (keyspace + "/" + dir + "/" + file)
  }

  /** Every path made of any leading directories, then a keyspace, a table
      directory and a file name, none containing `/`, yields that keyspace
      and the table named by the directory. */
  lemma PathComponents(path: string, dirs: string, keyspace: string, dir: string, file: string)
    requires ComponentsOf(path, dirs, keyspace, dir, file)
    ensures ParseSSTablePath(path) == Success(Location(keyspace, TableName(dir)))
  {
    var tail := keyspace + "/" + dir + "/" + file;
    SplitThree(keyspace, dir, file);
    if dirs == "" {
      assert path == tail;
      LastThreeComponents(tail);
    } else {
      var p := dirs[..|dirs| - 1];
      assert path == p + ['/'] + tail;
      SplitAppend(p, '/', tail);
      LastThreeComponents(path);
    }
  }

  /** Conversely, every path that decomposes has that shape, with the
      keyspace and table directory it reported. */
  lemma DecomposedPathShape(path: string)
    requires ParseSSTablePath(path).Success?
    ensures exists dirs, dir, file ::
      && ComponentsOf(path, dirs, ParseSSTablePath(path).value.keyspace, dir, file)
      && ParseSSTablePath(path).value.table == TableName(dir)
  {
    var parts := Split(path, "/");
    var n := |parts|;
    SplitLength(path, '/');
    SplitJoin(path, "/");
    SplitPiecesLack(path, '/');
    RejoinLastThree(parts);
    assert ComponentsOf(path, LeadingDirs(parts), parts[n - 3], parts[n - 2], parts[n - 1]);
  }

  /** The components before the last three, each followed by its `/`. */
  function LeadingDirs(parts: seq<string>): (dirs: string)
    requires |parts| >= 3
    ensures dirs == "" || dirs[|dirs| - 1] == '/'
  {
    if |parts| == 3 then "" else Join(parts[..|parts| - 3], "/") + "/"
  }

  lemma RejoinLastThree(parts: seq<string>)
    requires |parts| >= 3
    ensures var n := |parts|;
      Join(parts, "/") == LeadingDirs(parts) + (parts[n - 3] + "/" + parts[n - 2] + "/" + parts[n - 1])
  {
    var n := |parts|;
    var front, keyspace, dir, file := parts[..n - 3], parts[n - 3], parts[n - 2], parts[n - 1];
    var tail := [keyspace, dir, file];
    assert parts == front + tail;
    JoinThree(keyspace, dir, file);
    var last3 := keyspace + "/" + dir + "/" + file;
    if n == 3 {
      assert parts == tail;
      assert LeadingDirs(parts) + last3 == last3;
    } else {
      JoinAppend(front, tail, "/");
      assert Join(parts, "/") == Join(front, "/") + "/" + last3;
      assert LeadingDirs(parts) == Join(front, "/") + "/";
    }
  }

  lemma JoinThree(keyspace: string, dir: string, file: string)
    ensures Join([keyspace, dir, file], "/") == keyspace + "/" + dir + "/" + file
  {
    assert [keyspace, dir, file][1..] == [dir, file];
    assert [dir, file][1..] == [file];
    assert Join([file], "/") == file;
    assert Join([dir, file], "/") == dir + "/" + file;
    assert Join([keyspace, dir, file], "/") == keyspace + "/" + (dir + "/" + file);
  }

  lemma SplitThree(keyspace: string, dir: string, file: string)
    requires '/' !in keyspace && '/' !in dir && '/' !in file
    ensures Split(keyspace + "/" + dir + "/" + file, "/") == [keyspace, dir, file]
  {
    SplitWithout(keyspace, '/');
    SplitWithout(dir, '/');
    SplitWithout(file, '/');
    SplitAppend(dir, '/', file);
    assert keyspace + "/" + dir + "/" + file == keyspace + ['/'] + (dir + ['/'] + file);
    SplitAppend(keyspace, '/', dir + "/" + file);
  }

  lemma LastThreeComponents(path: string)
    requires |Split(path, "/")| >= 3
    ensures var parts := Split(path, "/");
      ParseSSTablePath(path) == Success(Location(parts[|parts| - 3], TableName(parts[|parts| - 2])))
  {
  }

  // ---------------------------------------------------------------------------
  // parse_sstable_name
  // ---------------------------------------------------------------------------

  /** Where the trailing run of digits of `s` begins. */
  function TrailingDigitsStart(s: string): (j: nat)
    ensures j <= |s|
    ensures AllDigits(s[j..])
    ensures j == 0 || !IsDigit(s[j - 1])
  {
    if |s| == 0 || !IsDigit(s[|s| - 1]) then |s|
    else
      var j := TrailingDigitsStart(s[..|s| - 1]);
      assert s[j..] == s[..|s| - 1][j..] + [s[|s| - 1]];
      j
  }

  /** Any digit run that reaches the end of `s` and follows a non-digit is
      the trailing one. */
  lemma TrailingDigitsUnique(s: string, j: nat)
    requires j <= |s| && AllDigits(s[j..])
    requires j == 0 || !IsDigit(s[j - 1])
    ensures TrailingDigitsStart(s) == j
  {
  }

  /** A `:level=<digits>` suffix can only start where the trailing digits do... */
  lemma LevelSuffixAtTrailing(t: string, j: int)
    requires LevelSuffixAt(t, j)
    ensures j == TrailingDigitsStart(t)
  {
    assert t[j - 1] == LevelMarker[|LevelMarker| - 1];
    TrailingDigitsUnique(t, j);
  }

  /** ...so when there is none there, there is none at all. */
  lemma NoLevelSuffix(t: string)
    requires !LevelSuffixAt(t, TrailingDigitsStart(t))
    ensures forall j :: !LevelSuffixAt(t, j)
  {
    forall j | LevelSuffixAt(t, j)
      ensures j == TrailingDigitsStart(t)
    {
      LevelSuffixAtTrailing(t, j);
    }
  }

  /** `s` without its final newline, if it has one: Python's `$` matches both
      at the end of the string and just before such a newline. */
  function BeforeFinalNewline(s: string): (t: string)
  {
    if |s| > 0 && s[|s| - 1] == '\n' then s[..|s| - 1] else s
  }

  /** `t` ends in `:level=` followed, from index `j`, by one or more digits. */
  predicate LevelSuffixAt(t: string, j: int)
  {
    |LevelMarker| <= j < |t| && t[j - |LevelMarker|..j] == LevelMarker && AllDigits(t[j..])
  }

  /** The regular expression `^(.*?)(?::level=(\d+))?$` searched in the last
      path component: `None` when it does not match, otherwise the first
      group and the optional second group. The lazy first group is as short
      as the rest allows, so the level group is taken whenever the text
      (before a final newline) ends in `:level=<digits>`. `.` does not match
      a newline, so an inner newline defeats the match. */
  function MatchNameLevel(c: string): (r: Option<(string, Option<string>)>)
    ensures r.None? <==> '\n' in BeforeFinalNewline(c)
    ensures r.Some? && r.value.1.Some? ==>
      && |r.value.1.value| > 0 && AllDigits(r.value.1.value)
      && BeforeFinalNewline(c) == r.value.0 + LevelMarker + r.value.1.value
    ensures r.Some? && r.value.1.None? ==>
      && r.value.0 == BeforeFinalNewline(c)
      && forall j :: !LevelSuffixAt(r.value.0, j)
  {
    var t := BeforeFinalNewline(c);
    if '\n' in t then None
    else
      var j := TrailingDigitsStart(t);
      if LevelSuffixAt(t, j) then
        assert t == t[..j - |LevelMarker|] + LevelMarker + t[j..];
        Some((t[..j - |LevelMarker|], Some(t[j..])))
      else
        NoLevelSuffix(t);
        Some((t, None))
  }

  /** `parse_sstable_name`: the SSTable's name and optional level, taken from
      the last `/` component only. A matched `:level=<digits>` suffix gives
      the level; the name is the first group cut at its first `-Data`, or the
      whole component when the first group is empty. When the regular
      expression does not match, the component cut at `-Data` is the name
      and there is no level. Nothing here raises. */
  function ParseSSTableName(path: string): (r: (string, Option<nat>))
    ensures var last := LastPiece(path, '/');
      |r.0| <= |last| && r.0 == last[..|r.0|] && '/' !in r.0
    ensures var m := MatchNameLevel(LastPiece(path, '/'));
      r.1.Some? <==> m.Some? && m.value.1.Some?
    ensures var m := MatchNameLevel(LastPiece(path, '/'));
      r.1.Some? ==> r.1.value == DigitsValue(m.value.1.value)
  {
    var last := LastPiece(path, '/');
    LastPieceLacks(path, '/');
    match MatchNameLevel(last)
    case Some((prefix, digits)) =>
      MatchedPrefix(last);
      FirstPieceOfPrefix(prefix, DataMarker, last);
      var name := if prefix != "" then Split(prefix, DataMarker)[0] else last;
      var level := if digits.Some? then Some(DigitsValue(digits.value)) else None;
      (name, level)
    case None =>
      FirstPiecePrefix(last, DataMarker);
      (if Contains(last, DataMarker) then Split(last, DataMarker)[0] else last, None)
  }

  /** The first group of a match is a prefix of the searched text. */
  lemma MatchedPrefix(c: string)
    requires MatchNameLevel(c).Some?
    ensures var p := MatchNameLevel(c).value.0; |p| <= |c| && p == c[..|p|]
  {
    var t := BeforeFinalNewline(c);
    var p := MatchNameLevel(c).value.0;
    assert t == c[..|t|];
    if MatchNameLevel(c).value.1.Some? {
      assert t[..|p|] == p;
    }
  }

  /** The SSTable name and level depend only on the last `/` component. */
  lemma NameFromLastComponent(dirs: string, file: string)
    ensures ParseSSTableName(dirs + "/" + file) == ParseSSTableName(file)
  {
    LastPieceAfter(dirs, '/', file);
  }

  /** A component ending in `:level=<digits>` (and free of `/` and newlines)
      yields the level those digits spell, and as name the text before the
      first `-Data` of what precedes the suffix, or the whole component when
      nothing precedes it. */
  lemma NameWithLevel(prefix: string, digits: string)
    requires '/' !in prefix && '\n' !in prefix
    requires |digits| > 0 && AllDigits(digits)
    ensures ParseSSTableName(prefix + LevelMarker + digits)
         == (if prefix == "" then LevelMarker + digits else Split(prefix, DataMarker)[0],
             Some(DigitsValue(digits)))
  {
    var c := prefix + LevelMarker + digits;
    assert '/' !in LevelMarker && forall i | 0 <= i < |digits| :: digits[i] != '/';
    assert '/' !in c;
    SplitWithout(c, '/');
    MatchWithLevel(prefix, digits);
  }

  /** The regular expression splits `<prefix>:level=<digits>` back into
      `prefix` and `digits`, for any newline-free `prefix`. */
  lemma MatchWithLevel(prefix: string, digits: string)
    requires '\n' !in prefix
    requires |digits| > 0 && AllDigits(digits)
    ensures MatchNameLevel(prefix + LevelMarker + digits) == Some((prefix, Some(digits)))
  {
    var c := prefix + LevelMarker + digits;
    var j := |prefix| + |LevelMarker|;
    assert c[j..] == digits;
    assert c[..|prefix|] == prefix;
    assert c[j - |LevelMarker|..j] == LevelMarker;
    assert '\n' !in LevelMarker && forall i | 0 <= i < |digits| :: digits[i] != '\n';
    assert '\n' !in c;
    assert BeforeFinalNewline(c) == c by {
      assert c[|c| - 1] == digits[|digits| - 1];
    }
    assert c[j - 1] == '=';
    TrailingDigitsUnique(c, j);
    assert LevelSuffixAt(c, j);
  }

  /** A component that does not end in `:level=<digits>` (and is free of `/`
      and newlines) has no level, and its name is the text before its first
      `-Data`. */
  lemma NameWithoutLevel(file: string)
    requires '/' !in file && '\n' !in file
    requires forall j :: !LevelSuffixAt(file, j)
    ensures ParseSSTableName(file) == (Split(file, DataMarker)[0], None)
  {
    SplitWithout(file, '/');
    if file == "" {
      assert Split(file, DataMarker) == [""];
    }
  }

  /** A listed SSTable file `<base>-Data<rest>:level=<digits>` is recorded
      as `base` at the level the digits spell, for any `base` without
      `-Data`; with NameFromLastComponent the same holds under any directory. */
  lemma DataFileName(base: string, rest: string, digits: string)
    requires '/' !in base && '\n' !in base && '/' !in rest && '\n' !in rest
    requires !Contains(base, DataMarker)
    requires |digits| > 0 && AllDigits(digits)
    ensures ParseSSTableName(base + DataMarker + rest + LevelMarker + digits) == (base, Some(DigitsValue(digits)))
  {
    var prefix := base + DataMarker + rest;
    assert Split(prefix, DataMarker)[0] == base by {
      DataMarkerHead();
      FirstPieceBefore(base, DataMarker, rest);
    }
    assert '/' !in prefix && '\n' !in prefix && prefix != "" by {
      assert '/' !in DataMarker && '\n' !in DataMarker;
    }
    NameWithLevel(prefix, digits);
  }

  /** The first character of `-Data` does not recur in it. */
  lemma DataMarkerHead()
    ensures forall i | 1 <= i < |DataMarker| :: DataMarker[i] != DataMarker[0]
  {
  }

  /** Writing a level `n` after a listed SSTable file and reading it back
      gives the SSTable and `n` again. */
  lemma NameRoundTrip(base: string, rest: string, n: nat)
    requires '/' !in base && '\n' !in base && '/' !in rest && '\n' !in rest
    requires !Contains(base, DataMarker)
    ensures ParseSSTableName(base + DataMarker + rest + LevelMarker + NatToDigits(n)) == (base, Some(n))
  {
    DataFileName(base, rest, NatToDigits(n));
  }

  /** `na-1-big-Data.db:level=2` is SSTable `na-1-big` at level 2. */
  lemma ExampleWithLevel()
    ensures ParseSSTableName("na-1-big-Data.db:level=2") == ("na-1-big", Some(2))
  {
    var base, rest, digits := "na-1-big", ".db", "2";
    SpellExample(base, rest, digits);
    assert !Contains(base, DataMarker) by {
      assert DataMarker[1] !in base;
      ContainsOnlyPresent(base, DataMarker, 1);
    }
    assert AllDigits(digits) && DigitsValue(digits) == 2;
    DataFileName(base, rest, digits);
  }

  lemma SpellExample(base: string, rest: string, digits: string)
    requires base == "na-1-big" && rest == ".db" && digits == "2"
    ensures base + DataMarker + rest + LevelMarker + digits == "na-1-big-Data.db:level=2"
  {
  }

  /** A listed SSTable file `<base>-Data<rest>` whose last character is not
      a digit carries no level, whatever `rest` holds (`:level=x` included). */
  lemma NameRoundTripNoLevel(base: string, rest: string)
    requires '/' !in base && '\n' !in base && '/' !in rest && '\n' !in rest
    requires !Contains(base, DataMarker)
    requires |rest| > 0 && !IsDigit(rest[|rest| - 1])
    ensures ParseSSTableName(base + DataMarker + rest) == (base, None)
  {
    var file := base + DataMarker + rest;
    assert Split(file, DataMarker)[0] == base by {
      DataMarkerHead();
      FirstPieceBefore(base, DataMarker, rest);
    }
    assert '/' !in file && '\n' !in file by {
      assert '/' !in DataMarker && '\n' !in DataMarker;
    }
    assert forall j :: !LevelSuffixAt(file, j) by {
      assert file[|file| - 1] == rest[|rest| - 1];
    }
    NameWithoutLevel(file);
  }

  /** `na-1-big-Data.db` is SSTable `na-1-big` with no level. */
  lemma ExampleWithoutLevel()
    ensures ParseSSTableName("na-1-big-Data.db") == ("na-1-big", None)
  {
    var base, rest := "na-1-big", ".db";
    SpellDataFile(base, rest, "na-1-big-Data.db");
    assert !Contains(base, DataMarker) by {
      assert DataMarker[1] !in base;
      ContainsOnlyPresent(base, DataMarker, 1);
    }
    NameRoundTripNoLevel(base, rest);
  }

  /** A level suffix that is not all digits is no level at all:
      `na-1-big-Data.db:level=x` is SSTable `na-1-big` with no level. */
  lemma ExampleNonDigitLevel()
    ensures ParseSSTableName("na-1-big-Data.db:level=x") == ("na-1-big", None)
  {
    var base, rest := "na-1-big", ".db:level=x";
    SpellDataFile(base, rest, "na-1-big-Data.db:level=x");
    assert !Contains(base, DataMarker) by {
      assert DataMarker[1] !in base;
      ContainsOnlyPresent(base, DataMarker, 1);
    }
    NameRoundTripNoLevel(base, rest);
  }

  lemma SpellDataFile(base: string, rest: string, file: string)
    requires file == base + "-Data" + rest
    ensures base + DataMarker + rest == file
  {
  }
}
