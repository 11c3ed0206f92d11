/**
 * The records the indexing script builds: one string per PDF, its pages
 * joined with a form feed, paired position by position with the file's
 * path into a document whose metadata names that path.
 *
 * Page extraction is a parameter: `pagesOf(path)` is the list of page
 * texts the PDF reader yields for the file at `path`.
 */
module DocumentRecords {
  /** `chr(12)`, the separator placed between page texts. */
  const FormFeed: char := 12 as char

  /** `chr(12).join(pages)`. */
  function JoinPages(pages: seq<string>): string
    decreases |pages|
  {
    if |pages| == 0 then ""
    else if |pages| == 1 then pages[0]
    else pages[0] + [FormFeed] + JoinPages(pages[1..])
  }

  /** `text.split(chr(12))`: the pieces between separators; an empty text
      gives one empty piece. */
  function SplitPages(text: string): (pieces: seq<string>)
    ensures |pieces| >= 1
    ensures forall i :: 0 <= i < |pieces| ==> FormFeed !in pieces[i]
    decreases |text|
  {
    if FormFeed !in text then [text]
    else
      var k := FirstFormFeed(text);
      [text[..k]] + SplitPages(text[k + 1..])
  }

  /** The position of the first separator in a text that has one. */
  function FirstFormFeed(text: string): (k: nat)
    requires FormFeed in text
    ensures k < |text| && text[k] == FormFeed && FormFeed !in text[..k]
  {
    if text[0] == FormFeed then 0
    else
      var k := FirstFormFeed(text[1..]);
      assert text[1..][..k] == text[1..k + 1];
      1 + k
  }

  /** Splitting a joined text gives the pages back, when there was at least
      one page and no page holds a separator of its own. */
  lemma {:induction false} SplitJoin(pages: seq<string>)
    requires |pages| >= 1
    requires forall i :: 0 <= i < |pages| ==> FormFeed !in pages[i]
    ensures SplitPages(JoinPages(pages)) == pages
    decreases |pages|
  {
    if |pages| > 1 {
      var rest := JoinPages(pages[1..]);
      var text := pages[0] + [FormFeed] + rest;
      assert text[|pages[0]|] == FormFeed;
      FirstFormFeedAfterPage(pages[0], rest);
      var k := FirstFormFeed(text);
      assert text[..k] == pages[0];
      assert text[k + 1..] == rest;
      SplitJoin(pages[1..]);
      assert [pages[0]] + pages[1..] == pages;
    }
  }

  /** The first separator after a page free of separators is the one that
      ends it. */
  lemma FirstFormFeedAfterPage(page: string, rest: string)
    requires FormFeed !in page
    ensures FirstFormFeed(page + [FormFeed] + rest) == |page|
  {
    var text := page + [FormFeed] + rest;
    assert text[|page|] == FormFeed;
    var k := FirstFormFeed(text);
    assert text[..|page|] == page;
  }

  /** Joining the pieces of a split gives the text back. */
  lemma {:induction false} JoinSplit(text: string)
    ensures JoinPages(SplitPages(text)) == text
    decreases |text|
  {
    if FormFeed in text {
      var k := FirstFormFeed(text);
      var rest := text[k + 1..];
      JoinSplit(rest);
      var pieces := SplitPages(text);
      assert pieces[1..] == SplitPages(rest);
      assert text == text[..k] + [FormFeed] + rest;
    }
  }

  /** The number of separators in a joined text: one fewer than the pages,
      plus any the pages hold themselves. */
  function FormFeedsIn(pages: seq<string>): nat {
    if |pages| == 0 then 0 else multiset(pages[0])[FormFeed] + FormFeedsIn(pages[1..])
  }

  lemma {:induction false} JoinPagesSeparators(pages: seq<string>)
    requires |pages| >= 1
    ensures multiset(JoinPages(pages))[FormFeed] == |pages| - 1 + FormFeedsIn(pages)
    decreases |pages|
  {
    if |pages| > 1 {
      JoinPagesSeparators(pages[1..]);
      var rest := JoinPages(pages[1..]);
      assert multiset(pages[0] + [FormFeed] + rest)
          == multiset(pages[0]) + multiset([FormFeed]) + multiset(rest);
    }
  }

  /** Zero pages give the empty text, one page gives that page unchanged. */
  lemma JoinPagesSmall(page: string)
    ensures JoinPages([]) == ""
    ensures JoinPages([page]) == page
  {
  }

  /** The text of every file in the list, in list order: what
      `GetDocumentsAsStr` returns. */
  function DocumentsAsStr(dirFiles: seq<string>, pagesOf: string -> seq<string>): (texts: seq<string>)
    ensures |texts| == |dirFiles|
  {
    seq(|dirFiles|, i requires 0 <= i < |dirFiles| => JoinPages(pagesOf(dirFiles[i])))
  }

  /** `get_documents_as_str`, as written: one joined text per path, in order. */
  method GetDocumentsAsStr(dirFiles: seq<string>, pagesOf: string -> seq<string>) returns (docList: seq<string>)
    ensures |docList| == |dirFiles|
    ensures forall i :: 0 <= i < |dirFiles| ==> docList[i] == JoinPages(pagesOf(dirFiles[i]))
    ensures docList == DocumentsAsStr(dirFiles, pagesOf)
  {
    docList := [];
    for k := 0 to |dirFiles|
      invariant |docList| == k
      invariant forall i :: 0 <= i < k ==> docList[i] == JoinPages(pagesOf(dirFiles[i]))
    {
      var text := JoinPages(pagesOf(dirFiles[k]));
      docList := docList + [text];
    }
  }

  /** A llama-index document: its text and its metadata. */
  datatype Document = Document(text: string, metadata: map<string, string>)

  /** The metadata key naming the file a document came from. */
  const FilenameKey: string := "filename"

  /** The records comprehension: texts and paths zipped position by
      position, stopping at the shorter list. */
  function MakeDocuments(texts: seq<string>, paths: seq<string>): (docs: seq<Document>)
    ensures |docs| == if |texts| <= |paths| then |texts| else |paths|
  {
    var n := if |texts| <= |paths| then |texts| else |paths|;
    seq(n, i requires 0 <= i < n => Document(texts[i], map[FilenameKey := paths[i]]))
  }

  /** The path a document names, if it names one. */
  function SourceOf(d: Document): (r: string)
    ensures FilenameKey in d.metadata ==> r == d.metadata[FilenameKey]
  {
    if FilenameKey in d.metadata then d.metadata[FilenameKey] else ""
  }

  function Texts(docs: seq<Document>): (texts: seq<string>)
    ensures |texts| == |docs|
    ensures forall i :: 0 <= i < |docs| ==> texts[i] == docs[i].text
  {
    seq(|docs|, i requires 0 <= i < |docs| => docs[i].text)
  }

  function Sources(docs: seq<Document>): (paths: seq<string>)
    ensures |paths| == |docs|
    ensures forall i :: 0 <= i < |docs| ==> paths[i] == SourceOf(docs[i])
  {
    seq(|docs|, i requires 0 <= i < |docs| => SourceOf(docs[i]))
  }

  /** Record `i` carries text `i` and path `i`, and nothing else in its
      metadata: unzipping gives back both lists, cut to the shorter. */
  lemma MakeDocumentsPairs(texts: seq<string>, paths: seq<string>)
    ensures var docs := MakeDocuments(texts, paths);
            forall i :: 0 <= i < |docs| ==>
              docs[i].text == texts[i] && docs[i].metadata == map[FilenameKey := paths[i]]
    ensures var n := |MakeDocuments(texts, paths)|;
            Texts(MakeDocuments(texts, paths)) == texts[..n]
            && Sources(MakeDocuments(texts, paths)) == paths[..n]
  {
  }

  /** Zipping the unzipped lists of well-formed records gives the records
      back. */
  lemma UnzipZip(docs: seq<Document>)
    requires forall i :: 0 <= i < |docs| ==> docs[i].metadata.Keys == {FilenameKey}
    ensures MakeDocuments(Texts(docs), Sources(docs)) == docs
  {
    var r := MakeDocuments(Texts(docs), Sources(docs));
    forall i | 0 <= i < |docs| ensures r[i] == docs[i] {
      assert r[i].metadata == map[FilenameKey := SourceOf(docs[i])];
      assert r[i].metadata == docs[i].metadata;
    }
  }

  /** When texts come from the paths themselves, every record's text is
      the joined pages of the very file its metadata names, and no record
      is lost to the zip. */
  lemma RecordsPairTextWithItsFile(dirFiles: seq<string>, pagesOf: string -> seq<string>)
    ensures var docs := MakeDocuments(DocumentsAsStr(dirFiles, pagesOf), dirFiles);
            && |docs| == |dirFiles|
            && forall i :: 0 <= i < |docs| ==>
                 SourceOf(docs[i]) == dirFiles[i] && docs[i].text == JoinPages(pagesOf(SourceOf(docs[i])))
  {
  }
}
