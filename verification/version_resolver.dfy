/**
 * The deduplication pass: a map from a key to the best (version, file) pair
 * seen so far, folded over the directory listing, followed by the copy of one
 * file per key into the destination directory.
 *
 * The listing is a sequence because directory order is arbitrary and, through
 * the strict comparison, decides which of two equal versions survives.
 *
 * The fold is written over any parse function; `Resolve` instantiates it with
 * the pattern's `Parse`. Nothing the fold guarantees depends on the pattern.
 */
module VersionResolver {
  import opened Wrappers
  import opened FileNameParse

  /** How the loop reads one name. */
  type Parser = string -> Option<Versioned>

  /** The stored pair: best version seen for a key, and the file that carried it. */
  datatype Entry = Entry(version: nat, file: string)

  type Latest = map<string, Entry>

  /** The key a name is filed under: its base on a match, the whole name otherwise. */
  function KeyOf(parse: Parser, name: string): string {
    match parse(name)
    case Some(p) => p.base
    case None => name
  }

  /** The version a name competes with: the parsed version on a match, 0 otherwise. */
  function VersionOf(parse: Parser, name: string): nat {
    match parse(name)
    case Some(p) => p.version
    case None => 0
  }

  /** One turn of the loop body on `name`: an unmatched name overwrites its
      own entry unconditionally, a matched one replaces its base's entry only
      when the base is new or its version is strictly greater. */
  function Step(parse: Parser, m: Latest, name: string): Latest {
    match parse(name)
    case None => m[name := Entry(0, name)]
    case Some(p) =>
      if p.base !in m || p.version > m[p.base].version then m[p.base := Entry(p.version, name)]
      else m
  }

  /** What one step does: it adds the name's key, leaves every other key's
      entry alone, and either stores the name or keeps the old entry, by the
      strict comparison of versions. */
  lemma StepEffect(parse: Parser, m: Latest, name: string)
    ensures Step(parse, m, name).Keys == m.Keys + {KeyOf(parse, name)}
    ensures forall k :: k in m && k != KeyOf(parse, name) ==> Step(parse, m, name)[k] == m[k]
    ensures parse(name).None? ==> Step(parse, m, name)[name] == Entry(0, name)
    ensures parse(name).Some? && KeyOf(parse, name) in m
            && VersionOf(parse, name) <= m[KeyOf(parse, name)].version
            ==> Step(parse, m, name)[KeyOf(parse, name)] == m[KeyOf(parse, name)]
    ensures parse(name).Some?
            && (KeyOf(parse, name) !in m || VersionOf(parse, name) > m[KeyOf(parse, name)].version)
            ==> Step(parse, m, name)[KeyOf(parse, name)] == Entry(VersionOf(parse, name), name)
  {
  }

  /** The map after the loop has seen the first `n` names of the listing. */
  function ResolvePrefix(parse: Parser, files: seq<string>, n: nat): (m: Latest)
    requires n <= |files|
  {
    if n == 0 then map[] else Step(parse, ResolvePrefix(parse, files, n - 1), files[n - 1])
  }

  /** The keys are exactly the keys of the names seen. */
  lemma {:induction false} ResolveKeys(parse: Parser, files: seq<string>, n: nat)
    requires n <= |files|
    ensures ResolvePrefix(parse, files, n).Keys == set i | 0 <= i < n :: KeyOf(parse, files[i])
  {
    if n > 0 {
      ResolveKeys(parse, files, n - 1);
      assert (set i | 0 <= i < n :: KeyOf(parse, files[i]))
          == (set i | 0 <= i < n - 1 :: KeyOf(parse, files[i])) + {KeyOf(parse, files[n - 1])};
    }
  }

  /** The map after the loop of the deduplication pass has seen the whole listing. */
  function Resolve(files: seq<string>): Latest {
    ResolvePrefix(Parse, files, |files|)
  }

  /** The loop of the deduplication pass, as written; with `Parse` for
      `parse` it computes `Resolve(files)`. */
  method LatestVersions(parse: Parser, files: seq<string>) returns (latest: Latest)
    ensures latest == ResolvePrefix(parse, files, |files|)
  {
    latest := map[];
    var i := 0;
    while i < |files|
      invariant 0 <= i <= |files|
      invariant latest == ResolvePrefix(parse, files, i)
    {
      var file := files[i];
      ghost var before := latest;
      match parse(file) {
        case None =>
          latest := latest[file := Entry(0, file)];
        case Some(p) =>
          if p.base !in latest || p.version > latest[p.base].version {
            latest := latest[p.base := Entry(p.version, file)];
          }
      }
      assert latest == Step(parse, before, file);
      i := i + 1;
    }
  }

  /** Every entry is filed under its own file's key, carries that file's
      version, and names one of the first `n` inputs. */
  ghost predicate Coherent(parse: Parser, files: seq<string>, n: nat, m: Latest)
    requires n <= |files|
  {
    forall k :: k in m ==>
      && KeyOf(parse, m[k].file) == k
      && m[k].version == VersionOf(parse, m[k].file)
      && exists i :: 0 <= i < n && files[i] == m[k].file
  }

  lemma {:induction false} ResolveCoherent(parse: Parser, files: seq<string>, n: nat)
    requires n <= |files|
    ensures Coherent(parse, files, n, ResolvePrefix(parse, files, n))
  {
    if n > 0 {
      ResolveCoherent(parse, files, n - 1);
      var m0 := ResolvePrefix(parse, files, n - 1);
      var m := ResolvePrefix(parse, files, n);
      var last := files[n - 1];
      assert m == Step(parse, m0, last);
      forall k | k in m
        ensures KeyOf(parse, m[k].file) == k && m[k].version == VersionOf(parse, m[k].file)
        ensures exists i :: 0 <= i < n && files[i] == m[k].file
      {
        if k == KeyOf(parse, last) && m[k] == Entry(VersionOf(parse, last), last) {
          assert files[n - 1] == m[k].file;
        } else {
          assert k in m0 && m[k] == m0[k];
          var i :| 0 <= i < n - 1 && files[i] == m0[k].file;
          assert files[i] == m[k].file;
        }
      }
    }
  }

  /** A key without an entry was not the key of any name seen. */
  lemma KeyAbsentMeansUnseen(parse: Parser, files: seq<string>, n: nat, k: string)
    requires n <= |files| && k !in ResolvePrefix(parse, files, n)
    ensures forall j :: 0 <= j < n ==> KeyOf(parse, files[j]) != k
  {
    ResolveKeys(parse, files, n);
  }

  /** `files[i]` is the first name filed under `k` that reaches version `v`. */
  ghost predicate FirstToReach(parse: Parser, files: seq<string>, k: string, v: nat, i: int) {
    && 0 <= i < |files|
    && KeyOf(parse, files[i]) == k
    && VersionOf(parse, files[i]) == v
    && forall j :: 0 <= j < i && KeyOf(parse, files[j]) == k ==> VersionOf(parse, files[j]) < v
  }

  /** After `n` names, the stored version for `k` is the maximum over the names
      filed under `k` so far, and the stored name is the first one to reach it. */
  ghost predicate KeepsFirstMaximum(parse: Parser, files: seq<string>, n: nat, k: string)
    requires n <= |files| && k in ResolvePrefix(parse, files, n)
  {
    var e := ResolvePrefix(parse, files, n)[k];
    && (forall i :: 0 <= i < n && KeyOf(parse, files[i]) == k ==> VersionOf(parse, files[i]) <= e.version)
    && exists i :: i < n && FirstToReach(parse, files, k, e.version, i) && files[i] == e.file
  }

  /** No name the pattern fails to match is filed under `k`. */
  ghost predicate OnlyMatchedUnder(parse: Parser, files: seq<string>, k: string) {
    forall i :: 0 <= i < |files| && KeyOf(parse, files[i]) == k ==> parse(files[i]).Some?
  }

  lemma {:induction false} ResolveKeepsFirstMaximum(parse: Parser, files: seq<string>, n: nat, k: string)
    requires n <= |files| && k in ResolvePrefix(parse, files, n)
    requires OnlyMatchedUnder(parse, files, k)
    ensures KeepsFirstMaximum(parse, files, n, k)
  {
    assert n > 0;
    if k in ResolvePrefix(parse, files, n - 1) {
      ResolveKeepsFirstMaximum(parse, files, n - 1, k);
    }
    KeepsFirstMaximumStep(parse, files, n, k);
  }

  /** One more name keeps the property, whichever way the step goes. */
  lemma KeepsFirstMaximumStep(parse: Parser, files: seq<string>, n: nat, k: string)
    requires 0 < n <= |files| && k in ResolvePrefix(parse, files, n)
    requires KeyOf(parse, files[n - 1]) == k ==> parse(files[n - 1]).Some?
    requires k in ResolvePrefix(parse, files, n - 1) ==> KeepsFirstMaximum(parse, files, n - 1, k)
    ensures KeepsFirstMaximum(parse, files, n, k)
  {
    var last := files[n - 1];
    var m0 := ResolvePrefix(parse, files, n - 1);
    assert ResolvePrefix(parse, files, n) == Step(parse, m0, last);
    if KeyOf(parse, last) != k {
      OtherKeyStep(parse, files, n, k);
    } else if k !in m0 {
      NewKeyStep(parse, files, n, k);
    } else if VersionOf(parse, last) > m0[k].version {
      GreaterVersionStep(parse, files, n, k);
    } else {
      NoGreaterVersionStep(parse, files, n, k);
    }
  }

  /** The `n`-th name is filed under another key: the entry for `k` is untouched. */
  lemma OtherKeyStep(parse: Parser, files: seq<string>, n: nat, k: string)
    requires 0 < n <= |files| && k in ResolvePrefix(parse, files, n)
    requires KeyOf(parse, files[n - 1]) != k
    requires k in ResolvePrefix(parse, files, n - 1) && KeepsFirstMaximum(parse, files, n - 1, k)
    ensures KeepsFirstMaximum(parse, files, n, k)
  {
    assert ResolvePrefix(parse, files, n)[k] == ResolvePrefix(parse, files, n - 1)[k];
  }

  /** The `n`-th name is the first one filed under `k`: it is stored. */
  lemma NewKeyStep(parse: Parser, files: seq<string>, n: nat, k: string)
    requires 0 < n <= |files| && k in ResolvePrefix(parse, files, n)
    requires KeyOf(parse, files[n - 1]) == k && parse(files[n - 1]).Some?
    requires k !in ResolvePrefix(parse, files, n - 1)
    ensures KeepsFirstMaximum(parse, files, n, k)
  {
    var last := files[n - 1];
    KeyAbsentMeansUnseen(parse, files, n - 1, k);
    assert ResolvePrefix(parse, files, n)[k] == Entry(VersionOf(parse, last), last);
    assert FirstToReach(parse, files, k, VersionOf(parse, last), n - 1);
  }

  /** The `n`-th name is filed under `k`, which already has an entry, and
      carries a strictly greater version: it replaces the entry. */
  lemma GreaterVersionStep(parse: Parser, files: seq<string>, n: nat, k: string)
    requires 0 < n <= |files| && k in ResolvePrefix(parse, files, n)
    requires KeyOf(parse, files[n - 1]) == k && parse(files[n - 1]).Some?
    requires k in ResolvePrefix(parse, files, n - 1) && KeepsFirstMaximum(parse, files, n - 1, k)
    requires VersionOf(parse, files[n - 1]) > ResolvePrefix(parse, files, n - 1)[k].version
    ensures KeepsFirstMaximum(parse, files, n, k)
  {
    var last := files[n - 1];
    assert ResolvePrefix(parse, files, n)[k] == Entry(VersionOf(parse, last), last);
    assert FirstToReach(parse, files, k, VersionOf(parse, last), n - 1);
  }

  /** The `n`-th name is filed under `k`, which already has an entry, and does
      not carry a strictly greater version: the entry stays. */
  lemma NoGreaterVersionStep(parse: Parser, files: seq<string>, n: nat, k: string)
    requires 0 < n <= |files| && k in ResolvePrefix(parse, files, n)
    requires KeyOf(parse, files[n - 1]) == k && parse(files[n - 1]).Some?
    requires k in ResolvePrefix(parse, files, n - 1) && KeepsFirstMaximum(parse, files, n - 1, k)
    requires VersionOf(parse, files[n - 1]) <= ResolvePrefix(parse, files, n - 1)[k].version
    ensures KeepsFirstMaximum(parse, files, n, k)
  {
    assert ResolvePrefix(parse, files, n)[k] == ResolvePrefix(parse, files, n - 1)[k];
  }

  /** Each name adds at most one key. */
  lemma {:induction false} ResolveSize(parse: Parser, files: seq<string>, n: nat)
    requires n <= |files|
    ensures |ResolvePrefix(parse, files, n)| <= n
  {
    if n > 0 {
      ResolveSize(parse, files, n - 1);
      var m0 := ResolvePrefix(parse, files, n - 1);
      var m := Step(parse, m0, files[n - 1]);
      assert ResolvePrefix(parse, files, n) == m;
      assert m.Keys == m0.Keys + {KeyOf(parse, files[n - 1])};
      assert |m.Keys| <= |m0.Keys| + 1;
    }
  }

  /** The names copied into the destination directory, one per key. */
  function Canonical(m: Latest): set<string> {
    set k | k in m :: m[k].file
  }

  lemma {:induction false} CanonicalSize(parse: Parser, m: Latest)
    requires forall k :: k in m ==> KeyOf(parse, m[k].file) == k
    ensures |Canonical(m)| == |m|
    decreases |m|
  {
    if |m| > 0 {
      var k :| k in m;
      var m' := m - {k};
      assert m'.Keys == m.Keys - {k};
      CanonicalSize(parse, m');
      forall f | f in Canonical(m)
        ensures f in Canonical(m') + {m[k].file}
      {
        var j :| j in m && m[j].file == f;
        if j != k {
          assert j in m' && m'[j] == m[j];
        }
      }
      assert Canonical(m) == Canonical(m') + {m[k].file};
      assert m[k].file !in Canonical(m');
    }
  }

  /** An unmatched name keeps its own entry, at version 0, unless a later
      name is filed under the same key. */
  lemma {:induction false} UnmatchedNameKept(parse: Parser, files: seq<string>, i: nat, n: nat)
    requires i < n <= |files| && parse(files[i]).None?
    requires forall j :: i < j < n ==> KeyOf(parse, files[j]) != files[i]
    ensures files[i] in ResolvePrefix(parse, files, n)
    ensures ResolvePrefix(parse, files, n)[files[i]] == Entry(0, files[i])
  {
    if n - 1 > i {
      UnmatchedNameKept(parse, files, i, n - 1);
    }
  }

  /** Over the pattern of the deduplication pass: for a key under which only
      matched names are filed, the stored version is the greatest such
      name's version and the stored file is the first to carry it. */
  lemma ResolveStoresFirstMaximum(files: seq<string>, k: string)
    requires k in Resolve(files)
    requires OnlyMatchedUnder(Parse, files, k)
    ensures forall i :: 0 <= i < |files| && KeyOf(Parse, files[i]) == k
              ==> VersionOf(Parse, files[i]) <= Resolve(files)[k].version
    ensures exists i :: FirstToReach(Parse, files, k, Resolve(files)[k].version, i)
              && files[i] == Resolve(files)[k].file
  {
    ResolveKeepsFirstMaximum(Parse, files, |files|, k);
  }

  /** Every name of the listing has its key stored, and nothing else is. */
  lemma ResolveCoversListing(files: seq<string>)
    ensures forall k :: k in Resolve(files) <==> exists i :: 0 <= i < |files| && KeyOf(Parse, files[i]) == k
  {
    ResolveKeys(Parse, files, |files|);
  }

  /** The files copied are names of the listing, one per key, each filed
      under the key it is stored for, and there are no more of them than
      names in the listing. */
  lemma CanonicalFilesAreDistinctInputs(files: seq<string>)
    ensures forall f :: f in Canonical(Resolve(files)) ==> f in files
    ensures forall f :: f in Canonical(Resolve(files)) ==>
              KeyOf(Parse, f) in Resolve(files) && Resolve(files)[KeyOf(Parse, f)].file == f
    ensures |Canonical(Resolve(files))| == |Resolve(files)| <= |files|
  {
    var m := Resolve(files);
    ResolveCoherent(Parse, files, |files|);
    ResolveSize(Parse, files, |files|);
    CanonicalSize(Parse, m);
    forall f | f in Canonical(m)
      ensures f in files && KeyOf(Parse, f) in m && m[KeyOf(Parse, f)].file == f
    {
      var k :| k in m && m[k].file == f;
      var i :| 0 <= i < |files| && files[i] == m[k].file;
    }
  }
}
