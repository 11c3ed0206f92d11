/**
 * The four document series the pipeline sorts into: technical
 * specifications, technical reports, ETSI standards and European norms.
 * Each has a directory name under the destination and a filename prefix
 * that routes files into that directory.
 */
module Categories {
  import opened Wrappers

  datatype Category = TS | TR | ES | EN

  /** The order in which both scripts walk the categories. */
  const Order: seq<Category> := [TS, TR, ES, EN]

  /** The sub-directory a category's files end up in. */
  function DirName(c: Category): (name: string)
    ensures |name| == 2
  {
    match c
    case TS => "ts"
    case TR => "tr"
    case ES => "es"
    case EN => "en"
  }

  /** The filename prefix that routes a file into a category. */
  function Prefix(c: Category): (p: string)
    ensures |p| == 3 && p[..2] == DirName(c) && p[2] == '_'
  {
    DirName(c) + "_"
  }

  /** The category a directory name stands for, if any. */
  function CategoryOfDir(name: string): (r: Option<Category>)
    ensures r.Some? ==> DirName(r.value) == name
    ensures r.None? ==> forall c :: DirName(c) != name
  {
    if name == "ts" then Some(TS)
    else if name == "tr" then Some(TR)
    else if name == "es" then Some(ES)
    else if name == "en" then Some(EN)
    else None
  }

  lemma DirNameRoundTrip(c: Category)
    ensures CategoryOfDir(DirName(c)) == Some(c)
  {
  }

  /** Distinct categories have distinct directories. */
  lemma DirNameInjective(c: Category, c': Category)
    ensures DirName(c) == DirName(c') ==> c == c'
  {
    DirNameRoundTrip(c);
    DirNameRoundTrip(c');
  }

  /** No name carries two category prefixes. */
  lemma PrefixesExclusive(c: Category, c': Category, name: string)
    requires Prefix(c) <= name && Prefix(c') <= name
    ensures c == c'
  {
    assert Prefix(c)[..2] == name[..2] == Prefix(c')[..2];
    DirNameInjective(c, c');
  }

  /** No directory name carries a category prefix: the directories the
      pass creates are never swept up by its own patterns. */
  lemma DirNameHasNoPrefix(c: Category, c': Category)
    ensures !(Prefix(c) <= DirName(c'))
  {
  }

  /** Every category is walked, once. */
  lemma OrderListsEachOnce()
    ensures forall c :: c in Order
    ensures forall i, j :: 0 <= i < j < |Order| ==> Order[i] != Order[j]
  {
    forall c ensures c in Order {
      match c
      case TS => assert Order[0] == TS;
      case TR => assert Order[1] == TR;
      case ES => assert Order[2] == ES;
      case EN => assert Order[3] == EN;
    }
  }
}
