/**
 * The indexing script end to end: for each category, in order, list its
 * directory under the destination of the cleaning pass, build one record per
 * listed file, and hand the records to that category's collection.
 *
 * Directory listings and page extraction are parameters: `listingOf(c)` is
 * what listing the category directory yields, `pagesOf(path)` the page texts
 * of the PDF at `path`. The vector store itself is not modelled; a request
 * records what would be sent to it.
 */
module IndexRun {
  import opened Wrappers
  import opened Categories
  import opened VersionResolver
  import opened CategoryRouter
  import opened Paths
  import opened DocumentRecords
  import opened Collections

  /** What one `index_documents` call receives. */
  datatype IndexRequest = IndexRequest(collection: CollectionKey, documents: seq<Document>)

  /** A listing of a directory: each of its entries exactly once. */
  predicate Lists(entries: seq<string>, contents: set<string>) {
    && (forall i, j :: 0 <= i < j < |entries| ==> entries[i] != entries[j])
    && (forall e :: e in entries ==> e in contents)
    && (forall e :: e in contents ==> e in entries)
  }

  /** The records built for one category from its directory listing. */
  function CategoryRecords(c: Category, entries: seq<string>, pagesOf: string -> seq<string>): seq<Document> {
    var files := FullPathFiles(CategoryDir(c), entries);
    MakeDocuments(DocumentsAsStr(files, pagesOf), files)
  }

  /** The four `index_documents` calls, in order. */
  function IndexPlan(listingOf: Category -> seq<string>, pagesOf: string -> seq<string>): (plan: seq<IndexRequest>)
    ensures |plan| == |Order|
  {
    seq(|Order|, i requires 0 <= i < |Order| =>
      IndexRequest(CollectionKey(DbPath, CollectionName(Order[i])), CategoryRecords(Order[i], listingOf(Order[i]), pagesOf)))
  }

  /** A listing has as many entries as the directory holds. */
  lemma {:induction false} ListingSize(entries: seq<string>, contents: set<string>)
    requires Lists(entries, contents)
    ensures |entries| == |contents|
    decreases |entries|
  {
    if |entries| > 0 {
      var last := entries[|entries| - 1];
      var init := entries[..|entries| - 1];
      forall i, j | 0 <= i < j < |init| ensures init[i] != init[j] {
        assert init[i] == entries[i] && init[j] == entries[j];
      }
      forall e ensures e in init <==> e in contents - {last} {
        if e in init {
          var i :| 0 <= i < |init| && init[i] == e;
          assert entries[i] == e;
        }
        if e in contents - {last} {
          assert e in entries;
          var i :| 0 <= i < |entries| && entries[i] == e;
          assert i < |entries| - 1;
          assert init[i] == e;
        }
      }
      ListingSize(init, contents - {last});
    }
  }

  /** Every record one category contributes names a file under that
      category's directory whose entry is that file's listed name, and
      carries the joined pages of exactly that file; no two records name
      the same file, and there is one per listed file. */
  lemma CategoryRecordsPairFiles(c: Category, entries: seq<string>, contents: set<string>, pagesOf: string -> seq<string>)
    requires Lists(entries, contents)
    requires forall e :: e in contents ==> IsEntryName(e)
    ensures var docs := CategoryRecords(c, entries, pagesOf);
            && |docs| == |contents|
            && (forall i :: 0 <= i < |docs| ==>
                  && EntryUnder(CategoryDir(c), SourceOf(docs[i])) == Some(entries[i])
                  && entries[i] in contents
                  && docs[i].text == JoinPages(pagesOf(SourceOf(docs[i]))))
            && (forall i, j :: 0 <= i < j < |docs| ==> SourceOf(docs[i]) != SourceOf(docs[j]))
  {
    var files := FullPathFiles(CategoryDir(c), entries);
    RecordsPairTextWithItsFile(files, pagesOf);
    ListedPathsLeadBack(c, entries, contents);
    ListingSize(entries, contents);
  }

  /** Each listed entry's full path leads back to that entry. */
  lemma ListedPathsLeadBack(c: Category, entries: seq<string>, contents: set<string>)
    requires Lists(entries, contents)
    requires forall e :: e in contents ==> IsEntryName(e)
    ensures var files := FullPathFiles(CategoryDir(c), entries);
            forall i :: 0 <= i < |files| ==> EntryUnder(CategoryDir(c), files[i]) == Some(entries[i])
  {
    var dir := CategoryDir(c);
    var files := FullPathFiles(dir, entries);
    forall i | 0 <= i < |files| ensures EntryUnder(dir, files[i]) == Some(entries[i]) {
      assert entries[i] in entries;
      EntryUnderJoin(dir, entries[i]);
    }
  }

  /** `d` names a file of `copied` carrying the prefix of `c`, inside the
      directory of `c`, and holds that file's pages. */
  ghost predicate RecordOf(d: Document, copied: set<string>, c: Category, pagesOf: string -> seq<string>) {
    && (exists f :: f in copied && Prefix(c) <= f && EntryUnder(CategoryDir(c), SourceOf(d)) == Some(f))
    && d.text == JoinPages(pagesOf(SourceOf(d)))
  }

  /** Every file of `contents` is named, inside the directory of `c`, by
      some record, and no two records name the same path. */
  ghost predicate NamesEachOnce(docs: seq<Document>, c: Category, contents: set<string>) {
    && (forall i, j :: 0 <= i < j < |docs| ==> SourceOf(docs[i]) != SourceOf(docs[j]))
    && (forall f :: f in contents ==> exists d :: d in docs && EntryUnder(CategoryDir(c), SourceOf(d)) == Some(f))
  }

  /** One category after organizing: one record per file in its directory,
      each naming a copied file that carries the category's prefix and
      holding that file's pages; every file of the directory is named, and
      none twice. */
  lemma SortedCategoryRecords(copied: set<string>, c: Category, entries: seq<string>, pagesOf: string -> seq<string>)
    requires forall f :: f in copied ==> IsEntryName(f)
    requires Lists(entries, Sorted(copied).dirs[c])
    ensures |CategoryRecords(c, entries, pagesOf)| == |Sorted(copied).dirs[c]|
    ensures forall d :: d in CategoryRecords(c, entries, pagesOf) ==> RecordOf(d, copied, c, pagesOf)
    ensures NamesEachOnce(CategoryRecords(c, entries, pagesOf), c, Sorted(copied).dirs[c])
  {
    var contents := Sorted(copied).dirs[c];
    forall e | e in contents ensures IsEntryName(e) && e in copied && Prefix(c) <= e {
      SortedRoutesByPrefix(copied, c, e);
    }
    CategoryRecordsPairFiles(c, entries, contents, pagesOf);
    var docs := CategoryRecords(c, entries, pagesOf);
    forall d | d in docs ensures RecordOf(d, copied, c, pagesOf) {
      var k :| 0 <= k < |docs| && docs[k] == d;
      assert entries[k] in contents;
    }
    forall f | f in contents ensures exists d :: d in docs && EntryUnder(CategoryDir(c), SourceOf(d)) == Some(f) {
      var k :| 0 <= k < |entries| && entries[k] == f;
      assert docs[k] in docs;
    }
  }

  /** The indexing script over an organized destination: collection `i`
      of its table receives one record per file in category `i`'s
      directory, each naming a file of that directory and holding its pages;
      every file of the directory is named, and none twice. */
  lemma IndexPlanOverSorted(copied: set<string>, listingOf: Category -> seq<string>, pagesOf: string -> seq<string>)
    requires forall f :: f in copied ==> IsEntryName(f)
    requires forall c :: Lists(listingOf(c), Sorted(copied).dirs[c])
    ensures var plan := IndexPlan(listingOf, pagesOf);
            forall i :: 0 <= i < |plan| ==>
              && plan[i].collection == IndexedCollections[i]
              && |plan[i].documents| == |Sorted(copied).dirs[Order[i]]|
              && (forall d :: d in plan[i].documents ==> RecordOf(d, copied, Order[i], pagesOf))
              && NamesEachOnce(plan[i].documents, Order[i], Sorted(copied).dirs[Order[i]])
  {
    IndexedCollectionsFollowCategories();
    var plan := IndexPlan(listingOf, pagesOf);
    forall i | 0 <= i < |plan|
      ensures |plan[i].documents| == |Sorted(copied).dirs[Order[i]]|
      ensures forall d :: d in plan[i].documents ==> RecordOf(d, copied, Order[i], pagesOf)
      ensures NamesEachOnce(plan[i].documents, Order[i], Sorted(copied).dirs[Order[i]])
    {
      var c := Order[i];
      assert plan[i].documents == CategoryRecords(c, listingOf(c), pagesOf);
      SortedCategoryRecords(copied, c, listingOf(c), pagesOf);
    }
  }

  /** End to end: after a successful cleaning pass over `listing`, and with
      each category directory listed as it then is, the indexing script
      sends to collection `i` of its table one record per file in category
      `i`'s directory; each record names a file that survived deduplication
      and carries that category's prefix, and holds that file's pages; every
      file of the directory is named, and none twice. */
  lemma IndexedRecordsComeFromClean(listing: seq<string>, listingOf: Category -> seq<string>,
                                    pagesOf: string -> seq<string>)
    requires Clean(listing).Success?
    requires forall f :: f in listing ==> IsEntryName(f)
    requires forall c :: c in Clean(listing).value.dirs && Lists(listingOf(c), Clean(listing).value.dirs[c])
    ensures var plan := IndexPlan(listingOf, pagesOf);
            forall i :: 0 <= i < |plan| ==>
              && plan[i].collection == IndexedCollections[i]
              && |plan[i].documents| == |Clean(listing).value.dirs[Order[i]]|
              && (forall d :: d in plan[i].documents ==> RecordOf(d, Canonical(Resolve(listing)), Order[i], pagesOf))
              && NamesEachOnce(plan[i].documents, Order[i], Clean(listing).value.dirs[Order[i]])
  {
    var canon := Canonical(Resolve(listing));
    OrganizeIsSorted(canon);
    CanonicalFilesAreDistinctInputs(listing);
    IndexPlanOverSorted(canon, listingOf, pagesOf);
  }
}
