# 3GPP document pipeline: deduplication, routing and record pairing

This project models the deterministic core of a retrieval pipeline over
3GPP/ETSI PDF documents, and proves properties of it.

The cleaning pass (`clean.py`) does three things in order:

- It parses every downloaded file name against `(.+v)(\d+)((p|v|o|m)\.pdf)`.
- It keeps, per base name, the file with the highest version.
- It copies the survivors into `./unique_pdfs` and moves each file whose name
  starts with `ts_`, `tr_`, `es_` or `en_` into the matching sub-directory.

The indexing script (`index.py`) then works per category:

- It lists each category directory.
- It joins every PDF's page texts with a form feed (`chr(12)`).
- It zips the texts with the file paths into records whose metadata names
  the file.
- It hands each category's records to the collection `<cat>_docs` of the
  database `3gpp_db`. The query script (`query.py`) reads those collections
  back.

Modules, one file each:

- `wrappers.dfy` (`Wrappers`): `Option` and `Result`.
- `filename_parse.dfy` (`FileNameParse`): the pattern match as Python's
  `re.match` performs it.
  - Only the start is anchored.
  - `.` excludes a line feed.
  - The greedy `.+` backs off from the right, so group 1 ends at the
    rightmost place where the pattern can match.
  - The greedy `\d+` takes the whole digit run.
- `version_resolver.dfy` (`VersionResolver`): the latest-version fold over
  the listing, and the set of files copied.
  - The fold is written over any parse function. `Resolve` instantiates it
    with `Parse`.
  - The listing is a sequence, because its order decides between equal
    versions.
- `categories.dfy` (`Categories`): the four series, with their directory
  names and filename prefixes.
- `category_router.dfy` (`CategoryRouter`): directory creation with
  `exist_ok=True`, and the glob-and-move loop. The destination is modelled
  by its listing.
  - `Sorted` states the intended layout directly.
  - `OrganizeIsSorted` proves that the loops produce that layout, or fail
    exactly when a copied file blocks a directory.
- `paths.dfy` (`Paths`): POSIX `os.path.join`, its inverse for entries
  directly under a directory, the category directories, and
  `get_full_path_files`.
- `document_records.dfy` (`DocumentRecords`): the page join and its inverse
  split, `get_documents_as_str`, and the zip into records.
- `collections.dfy` (`Collections`): the collection names and the two
  literal tables.
- `index_run.dfy` (`IndexRun`): the four indexing calls end to end, linked
  back to the cleaning pass.
- `worked_cases.dfy` (`WorkedCases`): concrete names run through the model.

The external world enters as parameters:

- `pagesOf(path)` is the PDF reader's page texts for a file.
- `listingOf(c)` is what listing a category directory yields.
- A `Parser` is any parse function.

Behaviour of the code worth noting:

- Equal versions are possible, e.g. `abcv1p.pdf` and `abcv1m.pdf`. The
  strict `>` then keeps the name listed first (`FirstOfEqualVersionsWins`).
- A name such as `tr_22v3.pdf`, with no `p`/`v`/`o`/`m` before `.pdf`, does
  not match the pattern. It is kept under its own name (`ParseUntaggedThree`), so
  `tr_22v1.pdf` and `tr_22v3.pdf` are both copied (`UntaggedNamesAllKept`).
- Text extraction has no typed error results in the code. A reader failure
  is an exception and is not modelled.

## Model

| member | source | states |
|---|---|---|
| FileNameParse.DigitRun | clean.py:13 | The greedy `\d+`: the run it measures lies within the name, is all digits, and is followed by a non-digit or the end; `DigitRunUnique` shows it is the only such run. |
| FileNameParse.DigitsValue | clean.py:17-18 | `int(version)` on the digit run; its meaning is carried by `LongerRunOutranks` and `LeadingZeroIgnored` (integer order, leading zeros ignored). |
| FileNameParse.RightmostSplit | clean.py:13 | The backing-off search returns a group-1 end at which the pattern matches, with no matching end to its right; `None` means no end matches at all. |
| FileNameParse.Parse | clean.py:13-18 | A parsed base is a proper prefix of the name, at least two characters long and ending in `v`. |
| FileNameParse.DigitRunUnique | clean.py:13 | A digit run followed by a non-digit or the end is exactly what the greedy `\d+` takes. |
| FileNameParse.MatchesWithTakesWholeRun | clean.py:13 | Any way the pattern matches uses the whole digit run after group 1. |
| FileNameParse.ParseSucceedsIffAccepted | clean.py:13-14 | The parse succeeds if and only if the pattern matches the name in some way. |
| FileNameParse.RightmostSplitFindsLast | clean.py:13 | The search stops at the rightmost group-1 end the pattern allows, with that end's digit run. |
| FileNameParse.ParseTakesRightmostMatch | clean.py:13-18 | On a match, the base is the name up to the rightmost possible end of group 1, and the version is the digit run after it read as an integer. |
| FileNameParse.TrailingTextKeepsMatch | clean.py:13 | Only the start is anchored: appending any text to a matching name keeps it matching. |
| FileNameParse.LongerRunOutranks | clean.py:18-19 | Versions compare as integers: a longer digit run without a leading zero is a greater version (`10` outranks `9`). |
| FileNameParse.LeadingZeroIgnored | clean.py:18 | A leading zero does not change the version (`007` equals `7`). |
| VersionResolver.Step | clean.py:14-20 | One turn of the loop body; what it does is stated by `StepEffect`, and `LatestVersions` shows the loop as written performs it. |
| VersionResolver.ResolvePrefix | clean.py:12-20 | The map after the loop has seen the first n names; its meaning is carried by `ResolveKeys`, `ResolveCoherent`, `ResolveKeepsFirstMaximum` and `ResolveSize`. |
| VersionResolver.Resolve | clean.py:12-20 | The map after the whole listing, with the pattern of clean.py:13; its meaning is carried by `ResolveStoresFirstMaximum` and `ResolveCoversListing`. |
| VersionResolver.Canonical | clean.py:22-26 | The files the copy loop copies, one per key; its meaning is carried by `CanonicalFilesAreDistinctInputs` and `CanonicalSize`. |
| VersionResolver.StepEffect | clean.py:14-20 | One loop turn adds the name's key and leaves every other entry unchanged. An unmatched name overwrites its own entry with version 0. A matched name replaces its base's entry only when the base is new or the version is strictly greater. |
| VersionResolver.LatestVersions | clean.py:10-20 | The loop as written computes the fold of single steps over the whole listing. |
| VersionResolver.ResolveKeys | clean.py:12-20 | The stored keys are exactly the keys of the names seen. |
| VersionResolver.ResolveCoherent | clean.py:12-20 | Every stored entry is filed under its own file's key, carries that file's version, and names a file of the listing. |
| VersionResolver.KeyAbsentMeansUnseen | clean.py:12-20 | A key without an entry is the key of no name seen so far. |
| VersionResolver.ResolveKeepsFirstMaximum | clean.py:12-20 | For a key under which only matched names are filed, the stored version is the maximum over those names, and the stored file is the first to reach it. |
| VersionResolver.KeepsFirstMaximumStep | clean.py:19-20 | One more name keeps the first-maximum property for a key, whichever way the comparison goes. |
| VersionResolver.OtherKeyStep | clean.py:19-20 | A name filed under another key leaves the entry and its property untouched. |
| VersionResolver.NewKeyStep | clean.py:19-20 | The first name filed under a key is stored, and is the first to reach its version. |
| VersionResolver.GreaterVersionStep | clean.py:19-20 | A strictly greater version replaces the entry, and that name is the first to reach it. |
| VersionResolver.NoGreaterVersionStep | clean.py:19-20 | An equal or smaller version leaves the entry, so the earlier name stays. |
| VersionResolver.ResolveSize | clean.py:12-20 | There are no more keys than names seen. |
| VersionResolver.CanonicalSize | clean.py:22-26 | When each entry's file is filed under that entry's key, there are as many files to copy as keys. |
| VersionResolver.UnmatchedNameKept | clean.py:14-15 | An unmatched name keeps its own entry, at version 0, unless a later name is filed under the same key. |
| VersionResolver.ResolveStoresFirstMaximum | clean.py:12-20 | Over the pattern itself: for a key under which only matched names are filed, the stored version is the greatest of theirs and the stored file is the first to carry it. |
| VersionResolver.ResolveCoversListing | clean.py:12-20 | A key is stored if and only if some listed name is filed under it. |
| VersionResolver.CanonicalFilesAreDistinctInputs | clean.py:22-26 | Every copied file is a listed name, and is the stored file of its own key. There are exactly as many copied files as keys, and no more than listed names. |
| Categories.DirName | clean.py:28 | A category directory name is two characters long. |
| Categories.Prefix | clean.py:33-38 | A routing prefix is the directory name followed by `_`. |
| Categories.CategoryOfDir | clean.py:28 | The inverse of the directory name: it finds the category whose directory a name is, or reports that there is none. |
| Categories.DirNameRoundTrip | clean.py:28 | Looking up a category's directory name gives the category back. |
| Categories.DirNameInjective | clean.py:28 | Distinct categories have distinct directories. |
| Categories.PrefixesExclusive | clean.py:33-38 | No name carries two category prefixes. |
| Categories.DirNameHasNoPrefix | clean.py:28-38 | No directory the pass creates matches one of its own glob patterns. |
| Categories.OrderListsEachOnce | clean.py:28 | The directory loop walks every category exactly once. |
| CategoryRouter.TablesFollowCategories | clean.py:28-38 | Both literal tables walk the categories in order: the directory names, and each glob as the prefix followed by `*` with its target directory. |
| CategoryRouter.Matching | clean.py:42 | The glob `prefix*` finds exactly the top-level files that start with the prefix. |
| CategoryRouter.MakeDir | clean.py:30-31 | `makedirs` with `exist_ok` fails if and only if a regular file has the directory's name. Otherwise it adds an empty directory, or leaves an existing one as it is, and changes nothing else. |
| CategoryRouter.MakeDirs | clean.py:29-31 | The loop fails if and only if some listed category's name is taken by a file, and then with the name of the first such category in the list, as the loop stops there. Otherwise it adds exactly the listed directories, new ones empty, and keeps existing ones. |
| CategoryRouter.MakeDirsIdempotent | clean.py:31 | Creating the same directories a second time changes nothing. |
| CategoryRouter.MoveCategory | clean.py:42-43 | One pattern moves exactly the files with its prefix from the top level into its directory, and touches no other directory. It fails if and only if one of them is already there. |
| CategoryRouter.Route | clean.py:41-43 | The pattern loop, one `MoveCategory` per pattern in order, stopping at the first failure; its meaning is carried by `RouteEffect`. |
| CategoryRouter.Organize | clean.py:28-43 | The directory loop followed by the pattern loop over the copied files; its meaning is carried by `OrganizeIsSorted`. |
| CategoryRouter.Clean | clean.py:9-43 | The whole cleaning pass over a listing; its meaning is carried by `OrganizeIsSorted` over `Canonical(Resolve(listing))` and by `CleanRoutesNoMoreThanListed`. |
| CategoryRouter.RouteEffect | clean.py:41-43 | Routing into distinct empty directories never fails. Each directory receives exactly the files with its prefix, and the top level keeps the files with none. |
| CategoryRouter.MakeDirsOnFreshDestination | clean.py:28-31 | When no copied file is named like a category directory, the loop creates exactly the four empty directories. |
| CategoryRouter.RouteFromEmptyBucketsFiles | clean.py:41-43 | Routing out of the four empty directories leaves exactly the unprefixed files at the top level. |
| CategoryRouter.RouteFromEmptyBucketsDirs | clean.py:41-43 | Routing out of the four empty directories fills each with exactly the files carrying its prefix. |
| CategoryRouter.RouteFromEmptyBuckets | clean.py:41-43 | Routing out of the four empty directories produces the intended layout. |
| CategoryRouter.OrganizeIsSorted | clean.py:28-43 | Organizing fails if and only if a copied file is named like a category directory, and then reports the first such name in the order `ts`, `tr`, `es`, `en`. Otherwise the result is the intended layout: each directory holds the files with its prefix, and the top level holds the rest. |
| CategoryRouter.SortedRoutesByPrefix | clean.py:33-43 | A file is in a category's directory if and only if it was copied and carries that category's prefix. |
| CategoryRouter.SortedKeepsUnprefixed | clean.py:33-43 | The top level keeps exactly the copied files carrying no prefix, e.g. `misc.pdf`. |
| CategoryRouter.SortedHasEveryBucket | clean.py:28-31 | All four category directories exist afterwards. |
| CategoryRouter.SortedBucketsDisjoint | clean.py:33-43 | No file is in two category directories. |
| CategoryRouter.SortedCoversCopied | clean.py:33-43 | Every copied file is at the top level or in some category directory. |
| CategoryRouter.SortedConservesFiles | clean.py:33-43 | The top level and the four directories together hold exactly as many files as were copied. |
| CategoryRouter.CleanRoutesNoMoreThanListed | clean.py:9-43 | After a successful pass, the four directories together hold no more files than were copied, which is no more than the names listed. |
| Paths.Join | index.py:14-15 | An absolute second part replaces the first. Otherwise the result starts with the first part, ends with the second, and adds at most one separator. |
| Paths.EntryUnder | index.py:15 | A recovered entry is a non-empty name without `/`, and joining it back to the directory gives the path. |
| Paths.EntryUnderJoin | index.py:15 | Taking the entry back from a joined path gives the entry: the two are inverse. |
| Paths.JoinInjective | index.py:15 | Under one directory, distinct entries give distinct paths. |
| Paths.CategoryDir | index.py:99-102 | A category directory lies directly under `./unique_pdfs`, as the entry named after the category. |
| Paths.CategoryDirsDistinct | index.py:99-102 | Distinct categories have distinct directory paths. |
| Paths.FullPathFiles | index.py:15 | There is one path per listed entry, in listing order, each the directory joined with that entry. |
| Paths.EntriesUnder | index.py:15 | Each position holds the entry recovered from the path at that position. |
| Paths.FullPathFilesRoundTrip | index.py:15 | Every full path leads back to its own entry, and distinct entries give distinct paths. |
| DocumentRecords.JoinPages | index.py:30 | `chr(12).join(pages)`; its meaning is carried by `SplitJoin` and `JoinSplit` (split is its inverse), `JoinPagesSeparators` and `JoinPagesSmall`. |
| DocumentRecords.SplitPages | index.py:30 | Splitting on the form feed gives at least one piece, and no piece contains a separator. |
| DocumentRecords.FirstFormFeed | index.py:30 | Finds the first separator, with none before it. |
| DocumentRecords.SplitJoin | index.py:30 | Splitting a joined text gives back the pages, when there is at least one page and no page contains a form feed. |
| DocumentRecords.JoinSplit | index.py:30 | Joining the pieces of a split gives back the text. |
| DocumentRecords.JoinPagesSeparators | index.py:30 | k pages joined contain k-1 separators, plus any the pages contain themselves. |
| DocumentRecords.JoinPagesSmall | index.py:30 | Zero pages give the empty text, and one page gives that page unchanged. |
| DocumentRecords.DocumentsAsStr | index.py:17-32 | There is one text per path; `GetDocumentsAsStr` computes exactly this list, and `RecordsPairTextWithItsFile` states its contents. |
| DocumentRecords.GetDocumentsAsStr | index.py:27-32 | The loop yields one text per path, in order, each the joined pages of that path's file; the list is `DocumentsAsStr`, which the indexing run uses. |
| DocumentRecords.MakeDocuments | index.py:114-117 | The zip yields as many records as the shorter of the two lists. |
| DocumentRecords.SourceOf | index.py:114-117 | A record's source is the path under its `filename` metadata key. |
| DocumentRecords.Texts | index.py:114-117 | Projects the texts of the records, position by position. |
| DocumentRecords.Sources | index.py:114-117 | Projects the source paths of the records, position by position. |
| DocumentRecords.MakeDocumentsPairs | index.py:114-117 | Record i carries text i and has metadata exactly `{"filename": path i}`. Unzipping gives back both lists, cut to the shorter. |
| DocumentRecords.UnzipZip | index.py:114-117 | Zipping the unzipped lists of records whose metadata has only the `filename` key gives back the records. |
| DocumentRecords.RecordsPairTextWithItsFile | index.py:104-117 | When the texts come from the same path list, no record is lost to the zip. Every record holds the joined pages of the very file its metadata names. |
| Collections.CollectionName | index.py:124-127 | A collection name is the category's directory name followed by `_docs`. |
| Collections.CategoryOfCollection | index.py:124-127 | The inverse of the collection name. |
| Collections.CollectionNameRoundTrip | index.py:124-127 | Looking up a category's collection name gives the category back. |
| Collections.CollectionNamesDistinct | index.py:124-127 | Distinct categories are indexed into distinct collections. |
| Collections.IndexedCollectionsFollowCategories | index.py:124-127 | Entry i of the indexing table is category i's collection under the database path `3gpp_db`. |
| Collections.QueriesReadWhatWasIndexed | query.py:55-58 | The query script reads exactly the collections that were written, in the same order, and no two of them coincide. |
| IndexRun.IndexPlan | index.py:124-127 | There are four indexing calls, one per category. |
| IndexRun.CategoryRecords | index.py:104-117 | The records one category gets from its directory listing; its meaning is carried by `CategoryRecordsPairFiles`. |
| IndexRun.ListingSize | index.py:15 | A listing has as many entries as the directory holds. |
| IndexRun.CategoryRecordsPairFiles | index.py:104-117 | A category gets one record per file in its directory. Each record names a listed entry under the category directory and holds that file's pages, and no two records name the same file. |
| IndexRun.ListedPathsLeadBack | index.py:15 | The full path of each listed entry leads back to that entry. |
| IndexRun.SortedCategoryRecords | index.py:104-117 | Over the organized destination, each record names a copied file carrying the category's prefix and holds its pages; every file in the directory is named by a record, no two records name the same path, and there are as many records as files. |
| IndexRun.IndexPlanOverSorted | index.py:99-127 | Collection i of the table receives one record per file in category i's directory: each record names such a file and holds its pages, every file of the directory is named, and none twice. |
| IndexRun.IndexedRecordsComeFromClean | index.py:99-127 | End to end after a successful cleaning pass: every indexed record names a deduplication survivor with the right prefix, in the right collection; every routed file is named by a record of its category's collection, and none twice. |
| WorkedCases.ParseVersionTwo | clean.py:13-18 | `ts_1v2p.pdf` parses to base `ts_1v`, version 2. |
| WorkedCases.ParseVersionTen | clean.py:13-18 | `ts_1v10p.pdf` parses to base `ts_1v`, version 10. |
| WorkedCases.ParseAnyTag | clean.py:13-18 | `ts_1v3` followed by any of the tags `p`, `v`, `o`, `m` and then `.pdf` parses to base `ts_1v`, version 3: the tag letter plays no part in the version. |
| WorkedCases.ParseNoExtension | clean.py:13-14 | `abcv` does not match. |
| WorkedCases.ParseShortBase | clean.py:13-18 | `abcv5p.pdf` parses to base `abcv`, version 5. |
| WorkedCases.ParseUntaggedThree | clean.py:13-15 | `tr_22v3.pdf` does not match: no tag letter comes before `.pdf`. |
| WorkedCases.ParseUntaggedOne | clean.py:13-15 | `tr_22v1.pdf` does not match. |
| WorkedCases.NoMarkerCase | clean.py:13-15 | `ts_21.pdf` and `misc.pdf`, which have no `v` marker, do not match. |
| WorkedCases.UntaggedNamesAllKept | clean.py:12-26 | `ts_21.pdf`, `tr_22v1.pdf`, `tr_22v3.pdf` and `misc.pdf` are all copied: the two `tr_22` names are unmatched, so neither replaces the other. |
| WorkedCases.GreatestVersionWins | clean.py:12-20 | Of versions 2, 10 and 3 of one base, version 10 is kept. |
| WorkedCases.FirstOfEqualVersionsWins | clean.py:19 | Of two names with equal versions, the one listed first is kept. |
| WorkedCases.UnmatchedNameShadowsBase | clean.py:14-15 | An unmatched name equal to a base takes over that base's entry. |
| WorkedCases.RoutingCase | clean.py:33-43 | A `ts_` file lands in `ts`, and `misc.pdf` stays at the top level. |
| WorkedCases.FileNamedTsStopsCase | clean.py:29-31 | A copied file named `ts` stops the pass with that name. |
| WorkedCases.CategoryDirCase | index.py:99 | The specification directory is `./unique_pdfs/ts`. |
| WorkedCases.RoutedPathCase | index.py:15 | A file in it is opened as `./unique_pdfs/ts/<name>`. |
| WorkedCases.CollectionCase | index.py:124 | Specifications are indexed into `ts_docs` of `3gpp_db`. |

## Left out

- Only ASCII `0`-`9` is modelled for `\d`. Python's `str` patterns also accept other Unicode decimal digits, and `int()` reads them.
- The copy step (clean.py:22-26) is the set `Canonical` of files to copy. The destination is taken to be empty before the pass, and source/destination paths and copy failures are not modelled.
- CategoryRouter.MoveCategory: requires the target directory to exist. `shutil.move` onto a missing target renames the file, but the directory loop always creates the four targets before routing.
- Directories other than the four category ones at the destination's top level are not modelled. The pass creates no others.
- The order in which glob yields names, and so the order of moves within one pattern, does not affect the result, so it is not modelled. Hidden files are not special-cased, because no category prefix starts with `.`.
- VersionResolver.ResolveStoresFirstMaximum: requires that no unmatched name is filed under the key. An unmatched name equal to a base overwrites that base's entry unconditionally (clean.py:15), as `UnmatchedNameShadowsBase` shows.
- IndexRun.IndexedRecordsComeFromClean: requires that listed names contain no `/`, as directory entries never do, and that each directory listing yields each entry once.
- PDF page extraction (`fitz`) is the parameter `pagesOf`. Its failures raise exceptions and are not modelled.
- Directory listings (`os.listdir`) are parameters. Their order is arbitrary and is kept as given.
- The vector store and embedding calls (`chromadb`, `llama_index`; index.py:34-94, query.py:18-46) are external libraries. A request records only the collection and the documents it would receive.
- The query loop, LLM completion, tokenizer, `typewriter_effect` and the top-file lookup (query.py:60-88) are interactive I/O with external models, so they are not modelled.
- The crawler `download.py` and the model-download script `ollama_pull.py` are network I/O and are not part of this model.
