// The string helpers of language/util.py that the n-gram classifier relies on: sorting a table
// by value, chained replacements, and the pieces of a file path.

module LangUtil {
  import opened Common
  import opened Strings
  import opened Dicts
  import opened Sorting

  // ---------------------------------------------------------------- sort_by_value

  function Value<K>(item: (K, int)): real { item.1 as real }

  /** `sort_by_value(table, reverse=reverse)`: the items sorted by value with Python's stable
      `sorted`, ascending, or descending when `reverse` holds. */
  function SortByValue<K>(table: Dict<K, int>, reverse: bool): (r: seq<(K, int)>)
    ensures multiset(r) == multiset(table)
    ensures Ordered(r, Value, reverse)
  {
    SortPermutation(table, Value, reverse);
    SortOrdered(table, Value, reverse);
    Sort(table, Value, reverse)
  }

  /** Items of equal value come out in the table's order, in both directions. */
  lemma SortByValueStable<K>(table: Dict<K, int>, reverse: bool, v: int)
    ensures WithKey(SortByValue(table, reverse), Value, v as real) == WithKey(table, Value, v as real)
  {
    SortStable(table, Value, reverse, v as real);
  }

  /** Inserting an item whose key is new keeps the keys distinct. */
  lemma {:induction false} InsertDistinct<K>(x: (K, int), s: seq<(K, int)>, reverse: bool)
    requires DistinctKeys(s) && forall y :: y in s ==> y.0 != x.0
    ensures DistinctKeys(Insert(x, s, Value, reverse))
  {
    if s == [] || !Before(Value, reverse, s[0], x) {
      var r := [x] + s;
      forall i, j | 0 <= i < j < |r| ensures r[i].0 != r[j].0 {
        assert r[j] == s[j - 1];
        if i > 0 {
          assert r[i] == s[i - 1];
        }
      }
    } else {
      var t := Insert(x, s[1..], Value, reverse);
      InsertDistinct(x, s[1..], reverse);
      var r := [s[0]] + t;
      forall i, j | 0 <= i < j < |r| ensures r[i].0 != r[j].0 {
        assert r[j] == t[j - 1] && t[j - 1] in t;
        if i > 0 {
          assert r[i] == t[i - 1];
        } else if t[j - 1] != x {
          var k :| 0 <= k < |s[1..]| && s[1..][k] == t[j - 1];
          assert s[k + 1] == t[j - 1];
        }
      }
    }
  }

  lemma {:induction false} SortDistinct<K>(s: seq<(K, int)>, reverse: bool)
    requires DistinctKeys(s)
    ensures DistinctKeys(Sort(s, Value, reverse))
  {
    if s != [] {
      SortDistinct(s[1..], reverse);
      forall y | y in Sort(s[1..], Value, reverse) ensures y.0 != s[0].0 {
        var k :| 0 <= k < |s[1..]| && s[1..][k] == y;
        assert s[k + 1] == y;
      }
      InsertDistinct(s[0], Sort(s[1..], Value, reverse), reverse);
    }
  }

  /** Sorting a dict's items keeps each key once. */
  lemma SortByValueDistinct<K>(table: Dict<K, int>, reverse: bool)
    requires DistinctKeys(table)
    ensures DistinctKeys(SortByValue(table, reverse))
  {
    SortDistinct(table, reverse);
  }

  // ---------------------------------------------------------------- replace_all

  /** The replacements applied left to right, each to the result of the ones before it. */
  function ReplacedAll(reps: seq<(string, string)>, s: string): string
  {
    if |reps| == 0 then s
    else Replace(ReplacedAll(reps[..|reps| - 1], s), reps[|reps| - 1].0, reps[|reps| - 1].1)
  }

  /** `replace_all(replacements, string)`. */
  method ReplaceAll(reps: seq<(string, string)>, s: string) returns (r: string)
    ensures r == ReplacedAll(reps, s)
  {
    r := s;
    var i := 0;
    while i < |reps|
      invariant 0 <= i <= |reps|
      invariant r == ReplacedAll(reps[..i], s)
    {
      assert reps[..i + 1][..i] == reps[..i];
      r := Replace(r, reps[i].0, reps[i].1);
      i := i + 1;
    }
    assert reps[..|reps|] == reps;
  }

  /** Running two lists of replacements one after the other is running their concatenation. */
  lemma {:induction false} ReplacedAllConcat(a: seq<(string, string)>, b: seq<(string, string)>, s: string)
    ensures ReplacedAll(a + b, s) == ReplacedAll(b, ReplacedAll(a, s))
    decreases |b|
  {
    if |b| == 0 {
      assert a + b == a;
    } else {
      assert (a + b)[..|a + b| - 1] == a + b[..|b| - 1];
      ReplacedAllConcat(a, b[..|b| - 1], s);
    }
  }

  /** A target that does not occur leaves the text as it is. */
  lemma {:induction false} ReplaceAbsent(s: string, target: string, repl: string)
    requires |target| > 0 && !Contains(s, target)
    ensures Replace(s, target, repl) == s
    decreases |s|
  {
    if |s| > 0 {
      ReplaceAbsent(s[1..], target, repl);
    }
  }

  // ---------------------------------------------------------------- paths

  predicate IsSlash(c: char) { c == '/' }

  /** `os.path.basename(path)`: the text after the last '/'. */
  function Basename(path: string): (r: string)
    ensures |r| <= |path| && r == path[|path| - |r|..]
    ensures forall i :: 0 <= i < |r| ==> !IsSlash(r[i])
    ensures |r| < |path| ==> IsSlash(path[|path| - |r| - 1])
  {
    if |path| == 0 || IsSlash(path[|path| - 1]) then ""
    else Basename(path[..|path| - 1]) + [path[|path| - 1]]
  }

  /** `basename_noext(fname, ext)`: `basename[:-len(ext)]`, the base name without its last
      `len(ext)` characters; for an empty `ext` it is the empty slice `basename[:0]`. */
  function BasenameNoext(fname: string, ext: string): (r: string)
    ensures var b := Basename(fname);
            && (|ext| == 0 ==> r == "")
            && (|ext| > 0 ==> r <= b && |r| == if |ext| <= |b| then |b| - |ext| else 0)
  {
    var b := Basename(fname);
    if |ext| == 0 then "" else Take(b, |b| - |ext|)
  }

  /** The base name of a path ending in `/tail` is `tail` when `tail` has no '/'. */
  lemma {:induction false} BasenameAfterSlash(pre: string, tail: string)
    requires forall i :: 0 <= i < |tail| ==> !IsSlash(tail[i])
    ensures Basename(pre + "/" + tail) == tail
    decreases |tail|
  {
    var p := pre + "/" + tail;
    if |tail| > 0 {
      var t := tail[..|tail| - 1];
      assert p[..|p| - 1] == pre + "/" + t;
      BasenameAfterSlash(pre, t);
      assert tail == t + [tail[|tail| - 1]];
    }
  }

  /** A model file named `folder/lang.lm` gives back `lang`. */
  lemma BasenameOfModelFile(folder: string, lang: string, ext: string)
    requires |ext| > 0
    requires forall i :: 0 <= i < |lang| ==> !IsSlash(lang[i])
    requires forall i :: 0 <= i < |ext| ==> !IsSlash(ext[i])
    ensures BasenameNoext(folder + "/" + lang + ext, ext) == lang
  {
    var tail := lang + ext;
    forall i | 0 <= i < |tail| ensures !IsSlash(tail[i]) {
      if i >= |lang| {
        assert tail[i] == ext[i - |lang|];
      }
    }
    BasenameAfterSlash(folder, tail);
    assert folder + "/" + lang + ext == folder + "/" + tail;
    assert Take(tail, |tail| - |ext|) == lang;
  }

  /** The corpus modules `split_path` looks for, in the order it tries them. */
  const MODULES: seq<string> :=
    ["goldstandard/orig", "prestable/converted", "prestable/toktmx", "prestable/tmx", "orig", "converted",
     "stable", "analysed"]

  datatype PathComponents = PathComponents(root: string, moduleName: string, lang: string, genre: string,
                                           subdirs: string, basename: string)

  function Marker(name: string): string { "/" + name + "/" }

  /** `split_on_module`: the first module whose marker occurs, with the text before and after
      the marker; `p.split(d)` must give exactly two pieces, so a second occurrence after the
      first raises. */
  function SplitOnModule(p: string, mods: seq<string>): (r: Result<Option<(string, string, string)>>)
    ensures r.Ok? && r.value.None? <==> forall k :: 0 <= k < |mods| ==> !Contains(p, Marker(mods[k]))
    ensures r.Ok? && r.value.Some? ==>
              exists k :: (&& 0 <= k < |mods| && r.value.value.1 == mods[k]
                           && Contains(p, Marker(mods[k]))
                           && (forall j :: 0 <= j < k ==> !Contains(p, Marker(mods[j])))
                           && p == r.value.value.0 + Marker(mods[k]) + r.value.value.2)
  {
    if |mods| == 0 then Ok(None)
    else
      var d := Marker(mods[0]);
      if Contains(p, d) then
        ContainsAt(p, d);
        var i := Find(p, d);
        if FindFrom(p, d, i + |d|) != -1 then Err("ValueError")
        else
          assert p == p[..i] + d + p[i + |d|..];
          Ok(Some((p[..i], mods[0], p[i + |d|..])))
      else
        var rest := SplitOnModule(p, mods[1..]);
        if rest.Ok? && rest.value.Some? then
          var k :| 0 <= k < |mods[1..]| && rest.value.value.1 == mods[1..][k]
                   && Contains(p, Marker(mods[1..][k]))
                   && (forall j :: 0 <= j < k ==> !Contains(p, Marker(mods[1..][j])))
                   && p == rest.value.value.0 + Marker(mods[1..][k]) + rest.value.value.2;
          assert mods[k + 1] == mods[1..][k];
          assert forall j :: 0 < j < k + 1 ==> mods[j] == mods[1..][j - 1];
          rest
        else
          assert forall k :: 0 < k < |mods| ==> mods[k] == mods[1..][k - 1];
          rest
  }

  /** Splitting at '/' and joining with "/" gives the text back. */
  lemma {:induction false} SplitSlashJoin(s: string, cur: string)
    ensures Join("/", SplitWhereFrom(s, IsSlash, cur)) == cur + s
    decreases |s|
  {
    if |s| > 0 {
      if IsSlash(s[0]) {
        var rest := SplitWhereFrom(s[1..], IsSlash, "");
        SplitSlashJoin(s[1..], "");
        assert ([cur] + rest)[1..] == rest;
        assert cur + s == cur + "/" + s[1..];
      } else {
        SplitSlashJoin(s[1..], cur + [s[0]]);
        assert cur + [s[0]] + s[1..] == cur + s;
      }
    }
  }

  /** Splitting at '/' gives two pieces or more exactly when the text holds a '/'. */
  lemma {:induction false} SplitSlashCount(s: string, cur: string)
    ensures |SplitWhereFrom(s, IsSlash, cur)| >= 2 <==> exists i :: 0 <= i < |s| && IsSlash(s[i])
    decreases |s|
  {
    if |s| > 0 {
      if IsSlash(s[0]) {
      } else {
        SplitSlashCount(s[1..], cur + [s[0]]);
        assert forall i :: 0 < i < |s| ==> s[i] == s[1..][i - 1];
      }
    }
  }

  /** The pieces after the module marker, joined again, are the language, the genre, the
      sub-directories and the base name put back together with '/'. */
  lemma {:induction false} RestOfPieces(pieces: seq<string>)
    requires |pieces| >= 2
    ensures |pieces| == 2 ==> Join("/", pieces) == pieces[0] + "/" + pieces[1]
    ensures |pieces| == 3 ==> Join("/", pieces) == pieces[0] + "/" + pieces[1] + "/" + pieces[2]
    ensures |pieces| > 3 ==> Join("/", pieces) == pieces[0] + "/" + pieces[1] + "/"
                                                 + Join("/", pieces[2..|pieces| - 1]) + "/" + pieces[|pieces| - 1]
  {
    var tail := pieces[1..];
    assert Join("/", pieces) == pieces[0] + "/" + Join("/", tail);
    if |pieces| > 2 {
      assert tail[1..] == pieces[2..];
      assert Join("/", tail) == pieces[1] + "/" + Join("/", pieces[2..]);
      var mid := pieces[2..|pieces| - 1];
      assert pieces[2..] == mid + [pieces[|pieces| - 1]];
      JoinSnoc("/", mid, pieces[|pieces| - 1]);
    }
  }

  /** The components put back together give the path: with sub-directories, without them, or
      (when only one '/' follows the language) with the genre standing for the base name. */
  predicate Rebuilds(path: string, c: PathComponents)
  {
    var pre := c.root + Marker(c.moduleName);
    || path == pre + (c.lang + "/" + c.genre + "/" + c.subdirs + "/" + c.basename)
    || (c.subdirs == "" && path == pre + (c.lang + "/" + c.genre + "/" + c.basename))
    || (c.subdirs == "" && c.genre == c.basename && path == pre + (c.lang + "/" + c.basename))
  }

  /** `split_path` on a path that is already absolute and normalised: the root and the module
      around the marker, then the language, the genre, the sub-directories and the base name
      that the rest splits into at '/'. */
  function SplitPath(path: string): (r: Result<PathComponents>)
    ensures r.Ok? <==> (var m := SplitOnModule(path, MODULES);
                        m.Ok? && m.value.Some? && exists i :: 0 <= i < |m.value.value.2| && IsSlash(m.value.value.2[i]))
    ensures r.Ok? ==> Rebuilds(path, r.value)
    ensures r.Ok? ==> IsPrefix(r.value.root + Marker(r.value.moduleName), path)
    ensures r.Ok? ==> forall i :: 0 <= i < |r.value.lang| ==> !IsSlash(r.value.lang[i])
    ensures r.Ok? ==> forall i :: 0 <= i < |r.value.genre| ==> !IsSlash(r.value.genre[i])
    ensures r.Ok? ==> forall i :: 0 <= i < |r.value.basename| ==> !IsSlash(r.value.basename[i])
    ensures (forall k :: 0 <= k < |MODULES| ==> !Contains(path, Marker(MODULES[k]))) ==> r == Err("TypeError")
  {
    match SplitOnModule(path, MODULES)
    case Err(e) => Err(e)
    case Ok(None) => Err("TypeError")
    case Ok(Some(parts)) =>
      SplitSlashCount(parts.2, "");
      if |SplitWhere(parts.2, IsSlash)| < 2 then Err("IndexError")
      else
        ComponentsRebuild(path, parts.0, parts.1, parts.2);
        Ok(Components(parts.0, parts.1, SplitWhere(parts.2, IsSlash)))
  }

  /** The components `split_path` makes of the pieces of the text after the module marker. */
  function Components(root: string, moduleName: string, pieces: seq<string>): PathComponents
    requires |pieces| >= 2
  {
    PathComponents(root, moduleName, pieces[0], pieces[1],
                   Join("/", if |pieces| >= 3 then pieces[2..|pieces| - 1] else []), pieces[|pieces| - 1])
  }

  lemma ComponentsRebuild(path: string, root: string, moduleName: string, rest: string)
    requires path == root + Marker(moduleName) + rest && |SplitWhere(rest, IsSlash)| >= 2
    ensures var c := Components(root, moduleName, SplitWhere(rest, IsSlash));
            && Rebuilds(path, c) && IsPrefix(root + Marker(moduleName), path)
            && (forall i :: 0 <= i < |c.lang| ==> !IsSlash(c.lang[i]))
            && (forall i :: 0 <= i < |c.genre| ==> !IsSlash(c.genre[i]))
            && (forall i :: 0 <= i < |c.basename| ==> !IsSlash(c.basename[i]))
  {
    var pieces := SplitWhere(rest, IsSlash);
    SplitWherePieces(rest, IsSlash);
    SplitSlashJoin(rest, "");
    assert pieces[0] in pieces && pieces[1] in pieces && pieces[|pieces| - 1] in pieces;
    assert path[..|root + Marker(moduleName)|] == root + Marker(moduleName);
    PiecesRebuild(path, root, moduleName, pieces);
  }

  lemma PiecesRebuild(path: string, root: string, moduleName: string, pieces: seq<string>)
    requires |pieces| >= 2 && path == root + Marker(moduleName) + Join("/", pieces)
    ensures Rebuilds(path, Components(root, moduleName, pieces))
  {
    RestOfPieces(pieces);
  }

  /** The module `split_path` reports is the first listed one whose marker occurs. */
  lemma SplitPathModule(path: string)
    requires SplitPath(path).Ok?
    ensures exists k :: 0 <= k < |MODULES| && SplitPath(path).value.moduleName == MODULES[k]
                        && forall j :: 0 <= j < k ==> !Contains(path, Marker(MODULES[j]))
  {
    var r := SplitOnModule(path, MODULES);
    assert r.Ok? && r.value.Some?;
  }
}
