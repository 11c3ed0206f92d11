/**
 * Where the indexed documents live: one vector-store collection per
 * category, all under one database path, written by the indexing script and
 * read back by the query script.
 */
module Collections {
  import opened Wrappers
  import opened Categories

  /** The database path both scripts open. */
  const DbPath: string := "3gpp_db"

  /** A collection as both scripts address it: database path and name. */
  datatype CollectionKey = CollectionKey(dbPath: string, name: string)

  /** The collection a category's documents go into. */
  function CollectionName(c: Category): (name: string)
    ensures |name| == 7 && name[..2] == DirName(c) && name[2..] == "_docs"
  {
    DirName(c) + "_docs"
  }

  /** The category whose collection `name` is, if any: the inverse of
      `CollectionName`. */
  function CategoryOfCollection(name: string): (r: Option<Category>)
    ensures r.Some? ==> CollectionName(r.value) == name
  {
    if |name| == 7 && name[2..] == "_docs" then
      match CategoryOfDir(name[..2])
      case Some(c) =>
        assert name == name[..2] + name[2..];
        Some(c)
      case None => None
    else None
  }

  lemma CollectionNameRoundTrip(c: Category)
    ensures CategoryOfCollection(CollectionName(c)) == Some(c)
  {
    var name := CollectionName(c);
    assert name[..2] == DirName(c);
    DirNameRoundTrip(c);
  }

  /** Distinct categories are indexed into distinct collections. */
  lemma CollectionNamesDistinct(c: Category, c': Category)
    requires c != c'
    ensures CollectionName(c) != CollectionName(c')
  {
    CollectionNameRoundTrip(c);
    CollectionNameRoundTrip(c');
  }

  /** The collections the indexing script writes, in the order it writes them. */
  const IndexedCollections: seq<CollectionKey> := [
    CollectionKey("3gpp_db", "ts_docs"), CollectionKey("3gpp_db", "tr_docs"),
    CollectionKey("3gpp_db", "es_docs"), CollectionKey("3gpp_db", "en_docs")]

  /** The collections the query script reads, in the order it reads them. */
  const QueriedCollections: seq<CollectionKey> := [
    CollectionKey("3gpp_db", "ts_docs"), CollectionKey("3gpp_db", "tr_docs"),
    CollectionKey("3gpp_db", "es_docs"), CollectionKey("3gpp_db", "en_docs")]

  /** The indexing table follows the categories: entry `i` is category
      `i`'s collection under the one database path. */
  lemma IndexedCollectionsFollowCategories()
    ensures |IndexedCollections| == |Order|
    ensures forall i :: 0 <= i < |Order| ==> IndexedCollections[i] == CollectionKey(DbPath, CollectionName(Order[i]))
  {
    assert CollectionName(TS) == "ts_docs";
    assert CollectionName(TR) == "tr_docs";
    assert CollectionName(ES) == "es_docs";
    assert CollectionName(EN) == "en_docs";
  }

  /** The query script reads back exactly the collections the indexing
      script writes, each for the same category, and no two categories
      share one. */
  lemma QueriesReadWhatWasIndexed()
    ensures QueriedCollections == IndexedCollections
    ensures forall i, j :: 0 <= i < j < |IndexedCollections| ==> IndexedCollections[i] != IndexedCollections[j]
  {
    IndexedCollectionsFollowCategories();
    OrderListsEachOnce();
    forall i, j | 0 <= i < j < |IndexedCollections| ensures IndexedCollections[i] != IndexedCollections[j] {
      CollectionNamesDistinct(Order[i], Order[j]);
    }
  }
}
