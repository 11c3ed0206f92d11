/**
 * The second half of the cleaning pass: the canonical files are copied into
 * a fresh destination directory, the four category directories are created
 * there, and every file whose name starts with a category prefix is moved
 * into that category's directory.
 *
 * The destination is modelled by its listing only: the regular files at its
 * top level, and each category directory that exists, with the names inside
 * it. The pass creates no other directory.
 */
module CategoryRouter {
  import opened Wrappers
  import opened Categories
  import opened VersionResolver

  datatype Store = Store(files: set<string>, dirs: map<Category, set<string>>)

  datatype CleanError =
    | FileInTheWay(name: string)     // a directory is to be made where a regular file already is
    | DestinationTaken(dir: string)  // a move onto a name the directory already holds

  /** The directory list of the pass, as written. */
  const DirList: seq<string> := ["ts", "tr", "es", "en"]

  /** The pattern table of the pass, as written: a glob and its target directory. */
  const PatternTable: seq<(string, string)> := [("ts_*", "ts"), ("tr_*", "tr"), ("es_*", "es"), ("en_*", "en")]

  /** Both literal tables walk the categories in order: the directories are
      their names, and each glob is the category prefix followed by `*`. */
  lemma TablesFollowCategories()
    ensures |DirList| == |PatternTable| == |Order|
    ensures forall i :: 0 <= i < |Order| ==> DirList[i] == DirName(Order[i])
    ensures forall i :: 0 <= i < |Order| ==> PatternTable[i] == (Prefix(Order[i]) + "*", DirName(Order[i]))
  {
    assert Prefix(TS) + "*" == "ts_*";
    assert Prefix(TR) + "*" == "tr_*";
    assert Prefix(ES) + "*" == "es_*";
    assert Prefix(EN) + "*" == "en_*";
  }

  /** The names a glob `prefix*` finds among the top-level files. */
  function Matching(files: set<string>, prefix: string): (found: set<string>)
    ensures found <= files
    ensures forall f :: f in found <==> f in files && prefix <= f
  {
    set f | f in files && prefix <= f
  }

  /** `os.makedirs` with `exist_ok=True` for a category directory: an
      existing directory is left as it is, a regular file of that name is an
      error. */
  function MakeDir(s: Store, c: Category): (r: Result<Store, CleanError>)
    ensures r.Failure? <==> DirName(c) in s.files
    ensures r.Failure? ==> r.error == FileInTheWay(DirName(c))
    ensures r.Success? ==> r.value.files == s.files && r.value.dirs.Keys == s.dirs.Keys + {c}
    ensures r.Success? ==> forall d :: d in s.dirs ==> r.value.dirs[d] == s.dirs[d]
    ensures r.Success? && c !in s.dirs ==> r.value.dirs[c] == {}
  {
    if DirName(c) in s.files then Failure(FileInTheWay(DirName(c)))
    else if c in s.dirs then Success(s)
    else Success(s.(dirs := s.dirs[c := {}]))
  }

  /** `cats[i]` is the first category in `cats` whose name a regular file takes. */
  predicate FirstBlocked(files: set<string>, cats: seq<Category>, i: int) {
    && 0 <= i < |cats|
    && DirName(cats[i]) in files
    && forall j :: 0 <= j < i ==> DirName(cats[j]) !in files
  }

  /** The directory-creation loop: the first failure ends the pass. */
  function MakeDirs(s: Store, cats: seq<Category>): (r: Result<Store, CleanError>)
    ensures r.Failure? <==> exists c :: c in cats && DirName(c) in s.files
    ensures r.Failure? ==> exists i :: FirstBlocked(s.files, cats, i) && r.error == FileInTheWay(DirName(cats[i]))
    ensures r.Success? ==> r.value.files == s.files
    ensures r.Success? ==> r.value.dirs.Keys == s.dirs.Keys + (set c | c in cats)
    ensures r.Success? ==> forall d :: d in s.dirs ==> r.value.dirs[d] == s.dirs[d]
    ensures r.Success? ==> forall d :: d in r.value.dirs && d !in s.dirs ==> r.value.dirs[d] == {}
    decreases |cats|
  {
    if |cats| == 0 then Success(s)
    else
      assert forall c :: c in cats <==> c == cats[0] || c in cats[1..];
      match MakeDir(s, cats[0])
      case Failure(e) => Failure(e)
      case Success(s') => MakeDirs(s', cats[1..])
  }

  /** With `exist_ok`, creating the same directories again changes nothing. */
  lemma MakeDirsIdempotent(s: Store, cats: seq<Category>)
    requires MakeDirs(s, cats).Success?
    ensures MakeDirs(MakeDirs(s, cats).value, cats) == MakeDirs(s, cats)
  {
    var t := MakeDirs(s, cats).value;
    var t' := MakeDirs(t, cats).value;
    assert t'.dirs == t.dirs;
  }

  /** One pattern of the routing loop: every top-level file carrying the
      category prefix is moved into the category directory. */
  function MoveCategory(s: Store, c: Category): (r: Result<Store, CleanError>)
    requires c in s.dirs
    ensures r.Failure? <==> Matching(s.files, Prefix(c)) * s.dirs[c] != {}
    ensures r.Success? ==> r.value.files == s.files - Matching(s.files, Prefix(c))
    ensures r.Success? ==> r.value.dirs.Keys == s.dirs.Keys
    ensures r.Success? ==> r.value.dirs[c] == s.dirs[c] + Matching(s.files, Prefix(c))
    ensures r.Success? ==> forall d :: d in s.dirs && d != c ==> r.value.dirs[d] == s.dirs[d]
  {
    var moving := Matching(s.files, Prefix(c));
    if moving * s.dirs[c] != {} then Failure(DestinationTaken(DirName(c)))
    else Success(Store(s.files - moving, s.dirs[c := s.dirs[c] + moving]))
  }

  /** The routing loop over the given categories, in order. */
  function Route(s: Store, cats: seq<Category>): (r: Result<Store, CleanError>)
    requires forall c :: c in cats ==> c in s.dirs
    decreases |cats|
  {
    if |cats| == 0 then Success(s)
    else match MoveCategory(s, cats[0])
      case Failure(e) => Failure(e)
      case Success(s') =>
        assert forall c :: c in cats[1..] ==> c in cats;
        Route(s', cats[1..])
  }

  /** Routing into empty, distinct category directories never fails; each
      directory receives exactly the files with its prefix, the top level
      keeps the files with none, and other directories are untouched. */
  lemma {:induction false} RouteEffect(s: Store, cats: seq<Category>)
    requires forall c :: c in cats ==> c in s.dirs && s.dirs[c] == {}
    requires forall i, j :: 0 <= i < j < |cats| ==> cats[i] != cats[j]
    ensures Route(s, cats).Success?
    ensures Route(s, cats).value.files == set f | f in s.files && forall c :: c in cats ==> !(Prefix(c) <= f)
    ensures Route(s, cats).value.dirs.Keys == s.dirs.Keys
    ensures forall c :: c in cats ==> Route(s, cats).value.dirs[c] == Matching(s.files, Prefix(c))
    ensures forall d :: d in s.dirs && d !in cats ==> Route(s, cats).value.dirs[d] == s.dirs[d]
    decreases |cats|
  {
    if |cats| > 0 {
      var c0 := cats[0];
      var rest := cats[1..];
      var s' := MoveCategory(s, c0).value;
      forall c | c in rest
        ensures c != c0 && c in s'.dirs && s'.dirs[c] == {}
      {
        var j :| 0 <= j < |rest| && rest[j] == c;
        assert cats[j + 1] == c;
      }
      forall i, j | 0 <= i < j < |rest| ensures rest[i] != rest[j] {
        assert rest[i] == cats[i + 1] && rest[j] == cats[j + 1];
      }
      RouteEffect(s', rest);
      var r := Route(s', rest).value;
      assert Route(s, cats) == Route(s', rest);
      forall f
        ensures f in r.files <==> f in s.files && forall c :: c in cats ==> !(Prefix(c) <= f)
      {
        assert forall c :: c in cats <==> c == c0 || c in rest;
      }
      forall c | c in rest
        ensures r.dirs[c] == Matching(s.files, Prefix(c))
      {
        forall f | f in s.files && Prefix(c) <= f ensures f in s'.files {
          if Prefix(c0) <= f {
            PrefixesExclusive(c, c0, f);
          }
        }
      }
      assert c0 !in rest;
      assert r.dirs[c0] == Matching(s.files, Prefix(c0));
    }
  }

  /** The directory and routing loops over the files copied into the empty
      destination. */
  function Organize(copied: set<string>): (r: Result<Store, CleanError>) {
    match MakeDirs(Store(copied, map[]), Order)
    case Failure(e) => Failure(e)
    case Success(s) =>
      OrderListsEachOnce();
      Route(s, Order)
  }

  /** The four category directories, just created. */
  const EmptyBuckets: map<Category, set<string>> := map[TS := {}, TR := {}, ES := {}, EN := {}]

  /** What organizing is meant to produce, stated directly: each category
      directory holds the copied files carrying its prefix, and the top level
      the copied files carrying none. */
  function Sorted(copied: set<string>): Store {
    Store(
      set f | f in copied && forall c :: !(Prefix(c) <= f),
      map c: Category :: Matching(copied, Prefix(c)))
  }

  /** When no copied file is named like a category directory, the directory
      loop creates exactly the four empty category directories. */
  lemma MakeDirsOnFreshDestination(copied: set<string>)
    requires forall c :: DirName(c) !in copied
    ensures MakeDirs(Store(copied, map[]), Order) == Success(Store(copied, EmptyBuckets))
  {
    var m := MakeDirs(Store(copied, map[]), Order);
    OrderKeys();
    assert m.Success?;
    OnlyEmptyBuckets(m.value.dirs);
  }

  /** The directory loop's order names exactly the four categories. */
  lemma OrderKeys()
    ensures (set c | c in Order) == EmptyBuckets.Keys
  {
    OrderListsEachOnce();
  }

  /** A directory map with the four category keys, all empty, is `EmptyBuckets`. */
  lemma OnlyEmptyBuckets(d: map<Category, set<string>>)
    requires d.Keys == EmptyBuckets.Keys
    requires forall k :: k in d ==> d[k] == {}
    ensures d == EmptyBuckets
  {
  }

  /** Routing out of the four empty category directories succeeds, and
      leaves the copied files carrying no prefix at the top level. */
  lemma RouteFromEmptyBucketsFiles(copied: set<string>)
    ensures forall c :: c in Order ==> c in EmptyBuckets
    ensures Route(Store(copied, EmptyBuckets), Order).Success?
    ensures Route(Store(copied, EmptyBuckets), Order).value.files == Sorted(copied).files
  {
    OrderListsEachOnce();
    var s := Store(copied, EmptyBuckets);
    RouteEffect(s, Order);
    var r := Route(s, Order).value;
    forall f ensures f in r.files <==> f in Sorted(copied).files {
      assert forall c :: c in Order;
    }
  }

  /** Routing out of the four empty category directories fills each with
      the copied files carrying its prefix. */
  lemma RouteFromEmptyBucketsDirs(copied: set<string>)
    ensures forall c :: c in Order ==> c in EmptyBuckets
    ensures Route(Store(copied, EmptyBuckets), Order).Success?
    ensures Route(Store(copied, EmptyBuckets), Order).value.dirs == Sorted(copied).dirs
  {
    OrderListsEachOnce();
    var s := Store(copied, EmptyBuckets);
    RouteEffect(s, Order);
    SortedDirsFromBuckets(copied, Route(s, Order).value.dirs);
  }

  /** A directory map with the four category keys, each holding the copied
      files with its prefix, is the intended layout's. */
  lemma SortedDirsFromBuckets(copied: set<string>, d: map<Category, set<string>>)
    requires d.Keys == EmptyBuckets.Keys
    requires forall c :: c in Order ==> d[c] == Matching(copied, Prefix(c))
    ensures d == Sorted(copied).dirs
  {
    OrderListsEachOnce();
  }

  /** Routing the copied files out of a destination holding the four empty
      category directories produces the intended layout. */
  lemma RouteFromEmptyBuckets(copied: set<string>)
    ensures forall c :: c in Order ==> c in EmptyBuckets
    ensures Route(Store(copied, EmptyBuckets), Order) == Success(Sorted(copied))
  {
    RouteFromEmptyBucketsFiles(copied);
    RouteFromEmptyBucketsDirs(copied);
  }

  /** Organizing fails exactly when a copied file is named like a category
      directory, and then with the name of the first such category in the
      order `ts`, `tr`, `es`, `en`; otherwise it produces the intended layout. */
  lemma OrganizeIsSorted(copied: set<string>)
    ensures Organize(copied).Failure? <==> exists c :: DirName(c) in copied
    ensures Organize(copied).Failure? ==>
              Organize(copied).error.FileInTheWay?
              && CategoryOfDir(Organize(copied).error.name).Some?
              && Organize(copied).error.name in copied
    ensures Organize(copied).Failure? ==>
              exists i :: FirstBlocked(copied, Order, i) && Organize(copied).error == FileInTheWay(DirName(Order[i]))
    ensures Organize(copied).Success? ==> Organize(copied).value == Sorted(copied)
  {
    OrderListsEachOnce();
    if forall c :: DirName(c) !in copied {
      MakeDirsOnFreshDestination(copied);
      RouteFromEmptyBuckets(copied);
    } else {
      var c :| c in Order && DirName(c) in copied && Organize(copied).error == FileInTheWay(DirName(c));
      DirNameRoundTrip(c);
    }
  }

  /** In the intended layout, a file is in a category's directory exactly
      when it was copied and carries that category's prefix. */
  lemma SortedRoutesByPrefix(copied: set<string>, c: Category, f: string)
    ensures c in Sorted(copied).dirs
    ensures f in Sorted(copied).dirs[c] <==> f in copied && Prefix(c) <= f
  {
  }

  /** In the intended layout, the top level keeps exactly the copied files
      carrying no category prefix. */
  lemma SortedKeepsUnprefixed(copied: set<string>, f: string)
    ensures f in Sorted(copied).files <==> f in copied && forall c :: !(Prefix(c) <= f)
  {
  }

  /** In the intended layout, every category directory exists. */
  lemma SortedHasEveryBucket(copied: set<string>)
    ensures Sorted(copied).dirs.Keys == {TS, TR, ES, EN}
  {
    forall c | c in Sorted(copied).dirs ensures c in {TS, TR, ES, EN} {
      match c
      case TS =>
      case TR =>
      case ES =>
      case EN =>
    }
  }

  /** In the intended layout, no file is in two category directories. */
  lemma SortedBucketsDisjoint(copied: set<string>, c: Category, c': Category)
    requires c != c'
    ensures Sorted(copied).dirs[c] * Sorted(copied).dirs[c'] == {}
  {
    var r := Sorted(copied);
    forall f | f in r.dirs[c] && f in r.dirs[c'] ensures false {
      PrefixesExclusive(c, c', f);
    }
  }

  /** In the intended layout, every copied file is somewhere. */
  lemma SortedCoversCopied(copied: set<string>)
    ensures var r := Sorted(copied);
            copied == r.files + r.dirs[TS] + r.dirs[TR] + r.dirs[ES] + r.dirs[EN]
  {
    var r := Sorted(copied);
    forall f | f in copied && f !in r.files
      ensures f in r.dirs[TS] + r.dirs[TR] + r.dirs[ES] + r.dirs[EN]
    {
      var c :| Prefix(c) <= f;
      assert f in r.dirs[c];
      match c
      case TS =>
      case TR =>
      case ES =>
      case EN =>
    }
  }

  /** Five pairwise disjoint sets: the size of their union is the sum of
      their sizes. */
  lemma DisjointUnionSize(a: set<string>, b: set<string>, c: set<string>, d: set<string>, e: set<string>)
    requires a * b == {} && a * c == {} && a * d == {} && a * e == {}
    requires b * c == {} && b * d == {} && b * e == {}
    requires c * d == {} && c * e == {} && d * e == {}
    ensures |a + b + c + d + e| == |a| + |b| + |c| + |d| + |e|
  {
    assert |a + b| == |a| + |b|;
    assert (a + b) * c == {};
    assert |a + b + c| == |a| + |b| + |c|;
    assert (a + b + c) * d == {};
    assert |a + b + c + d| == |a| + |b| + |c| + |d|;
    assert (a + b + c + d) * e == {};
  }

  /** In the intended layout, every copied file is in exactly one place, so
      the top level and the buckets together hold as many files as were
      copied. */
  lemma SortedConservesFiles(copied: set<string>)
    ensures var r := Sorted(copied);
            |r.files| + |r.dirs[TS]| + |r.dirs[TR]| + |r.dirs[ES]| + |r.dirs[EN]| == |copied|
  {
    var r := Sorted(copied);
    SortedCoversCopied(copied);
    SortedBucketsDisjoint(copied, TS, TR);
    SortedBucketsDisjoint(copied, TS, ES);
    SortedBucketsDisjoint(copied, TS, EN);
    SortedBucketsDisjoint(copied, TR, ES);
    SortedBucketsDisjoint(copied, TR, EN);
    SortedBucketsDisjoint(copied, ES, EN);
    forall c ensures r.files * r.dirs[c] == {} {
      forall f | f in r.files && f in r.dirs[c] ensures false {
        SortedKeepsUnprefixed(copied, f);
      }
    }
    DisjointUnionSize(r.files, r.dirs[TS], r.dirs[TR], r.dirs[ES], r.dirs[EN]);
  }

  /** The whole cleaning pass over a directory listing: deduplicate, copy the
      survivors into the empty destination, organize them. */
  function Clean(listing: seq<string>): Result<Store, CleanError> {
    Organize(Canonical(Resolve(listing)))
  }

  /** A successful pass leaves each of the listing's survivors in exactly
      one place, so the routed files are no more than the names listed. */
  lemma CleanRoutesNoMoreThanListed(listing: seq<string>)
    requires Clean(listing).Success?
    ensures var r := Clean(listing).value;
            && r.dirs.Keys == {TS, TR, ES, EN}
            && |r.dirs[TS]| + |r.dirs[TR]| + |r.dirs[ES]| + |r.dirs[EN]|
               <= |Canonical(Resolve(listing))| <= |listing|
  {
    OrganizeIsSorted(Canonical(Resolve(listing)));
    SortedConservesFiles(Canonical(Resolve(listing)));
    SortedHasEveryBucket(Canonical(Resolve(listing)));
    CanonicalFilesAreDistinctInputs(listing);
  }
}
