/**
 * POSIX path joining as the indexing script uses it: the category
 * directories under the destination of the cleaning pass, and the full path
 * of every entry listed in one of them.
 */
module Paths {
  import opened Wrappers
  import opened Categories

  /** The directory the cleaning pass fills and the indexing script reads. */
  const MainDir: string := "./unique_pdfs"

  /** `os.path.join(a, b)` for two components on POSIX: an absolute `b`
      replaces `a`; otherwise a `/` is inserted unless `a` is empty or
      already ends with one. */
  function Join(a: string, b: string): (p: string)
    ensures |b| > 0 && b[0] == '/' ==> p == b
    ensures !(|b| > 0 && b[0] == '/') ==>
              |a| + |b| <= |p| <= |a| + |b| + 1 && a <= p && p[|p| - |b|..] == b
  {
    if |b| > 0 && b[0] == '/' then b
    else if |a| == 0 || a[|a| - 1] == '/' then a + b
    else a + "/" + b
  }

  /** A directory entry as a listing yields it: a non-empty name holding no `/`. */
  predicate IsEntryName(name: string) {
    |name| > 0 && forall i :: 0 <= i < |name| ==> name[i] != '/'
  }

  /** The entry a path names inside `dir`, when it lies directly under it:
      the inverse of joining `dir` with an entry name. */
  function EntryUnder(dir: string, path: string): (r: Option<string>)
    requires |dir| > 0 && dir[|dir| - 1] != '/'
    ensures r.Some? ==> IsEntryName(r.value) && path == Join(dir, r.value)
  {
    var n := |dir| + 1;
    if n <= |path| && path[..n] == dir + "/" && IsEntryName(path[n..]) then
      assert path == dir + "/" + path[n..];
      Some(path[n..])
    else None
  }

  /** Joining then taking the entry back gives the entry: the two are inverse. */
  lemma EntryUnderJoin(dir: string, name: string)
    requires |dir| > 0 && dir[|dir| - 1] != '/'
    requires IsEntryName(name)
    ensures EntryUnder(dir, Join(dir, name)) == Some(name)
  {
    var p := Join(dir, name);
    assert p == dir + "/" + name;
    assert p[..|dir| + 1] == dir + "/";
    assert p[|dir| + 1..] == name;
  }

  /** Under one directory, distinct entries give distinct paths. */
  lemma JoinInjective(dir: string, a: string, b: string)
    requires |dir| > 0 && dir[|dir| - 1] != '/'
    requires IsEntryName(a) && IsEntryName(b)
    requires Join(dir, a) == Join(dir, b)
    ensures a == b
  {
    EntryUnderJoin(dir, a);
    EntryUnderJoin(dir, b);
  }

  /** `create_dir_path(main_dir, c)`: the directory of a category's files. */
  function CategoryDir(c: Category): (d: string)
    ensures |d| > 0 && d[|d| - 1] != '/'
    ensures EntryUnder(MainDir, d) == Some(DirName(c))
  {
    var d := Join(MainDir, DirName(c));
    assert d == MainDir + "/" + DirName(c);
    EntryUnderJoin(MainDir, DirName(c));
    d
  }

  lemma CategoryDirsDistinct(c: Category, c': Category)
    requires c != c'
    ensures CategoryDir(c) != CategoryDir(c')
  {
    DirNameInjective(c, c');
  }

  /** `get_full_path_files`: each listed entry joined to the directory, in
      listing order. */
  function FullPathFiles(dir: string, entries: seq<string>): (paths: seq<string>)
    ensures |paths| == |entries|
    ensures forall i :: 0 <= i < |entries| ==> paths[i] == Join(dir, entries[i])
  {
    seq(|entries|, i requires 0 <= i < |entries| => Join(dir, entries[i]))
  }

  /** The entries back from full paths. */
  function EntriesUnder(dir: string, paths: seq<string>): (entries: seq<Option<string>>)
    requires |dir| > 0 && dir[|dir| - 1] != '/'
    ensures |entries| == |paths|
    ensures forall i :: 0 <= i < |paths| ==> entries[i] == EntryUnder(dir, paths[i])
  {
    seq(|paths|, i requires 0 <= i < |paths| => EntryUnder(dir, paths[i]))
  }

  /** Each full path leads back to its own entry, and distinct entries give
      distinct paths. */
  lemma FullPathFilesRoundTrip(dir: string, entries: seq<string>)
    requires |dir| > 0 && dir[|dir| - 1] != '/'
    requires forall i :: 0 <= i < |entries| ==> IsEntryName(entries[i])
    ensures EntriesUnder(dir, FullPathFiles(dir, entries)) == seq(|entries|, i requires 0 <= i < |entries| => Some(entries[i]))
    ensures forall i, j :: 0 <= i < |entries| && 0 <= j < |entries| && entries[i] != entries[j]
              ==> FullPathFiles(dir, entries)[i] != FullPathFiles(dir, entries)[j]
  {
    forall i | 0 <= i < |entries| ensures EntryUnder(dir, Join(dir, entries[i])) == Some(entries[i]) {
      EntryUnderJoin(dir, entries[i]);
    }
    forall i, j | 0 <= i < |entries| && 0 <= j < |entries| && entries[i] != entries[j]
      ensures Join(dir, entries[i]) != Join(dir, entries[j])
    {
      if Join(dir, entries[i]) == Join(dir, entries[j]) {
        JoinInjective(dir, entries[i], entries[j]);
      }
    }
  }
}
