/**
 * Concrete names run through the model: what the pattern makes of them,
 * which file survives, where it is routed, what path and collection the
 * indexing script gives it.
 */
module WorkedCases {
  import opened Wrappers
  import opened FileNameParse
  import opened VersionResolver
  import opened Categories
  import opened CategoryRouter
  import opened Paths
  import opened Collections

  lemma ParseVersionTwo()
    ensures Parse("ts_1v2p.pdf") == Some(Versioned("ts_1v", 2))
  {
    var n := "ts_1v2p.pdf";
    assert MatchesWith(n, 5, 1);
    forall k', d' | MatchesWith(n, k', d') ensures k' <= 5 {}
    ParseTakesRightmostMatch(n, 5, 1);
    assert n[..5] == "ts_1v" && n[5..6] == "2";
    assert DigitsValue("2") == 2 by { assert "2"[..0] == ""; }
  }

  lemma ParseVersionTen()
    ensures Parse("ts_1v10p.pdf") == Some(Versioned("ts_1v", 10))
  {
    var n := "ts_1v10p.pdf";
    assert MatchesWith(n, 5, 2);
    forall k', d' | MatchesWith(n, k', d') ensures k' <= 5 {}
    ParseTakesRightmostMatch(n, 5, 2);
    assert n[..5] == "ts_1v" && n[5..7] == "10";
    assert DigitsValue("10") == 10 by {
      assert "10"[..1] == "1";
      assert DigitsValue("1") == 1 by { assert "1"[..0] == ""; }
    }
  }

  /** The tag letter does not take part in the version: `ts_1v3p.pdf`,
      `ts_1v3v.pdf`, `ts_1v3o.pdf` and `ts_1v3m.pdf` read alike. */
  lemma ParseAnyTag(tag: char)
    requires IsTag(tag)
    ensures Parse("ts_1v3" + [tag] + ".pdf") == Some(Versioned("ts_1v", 3))
  {
    var n := "ts_1v3" + [tag] + ".pdf";
    assert |n| == 11 && n[..5] == "ts_1v" && n[5..6] == "3";
    assert n[6] == tag && n[7..11] == ".pdf";
    assert MatchesWith(n, 5, 1);
    forall k', d' | MatchesWith(n, k', d') ensures k' <= 5 {}
    ParseTakesRightmostMatch(n, 5, 1);
    assert DigitsValue("3") == 3 by { assert "3"[..0] == ""; }
  }

  lemma ParseNoExtension()
    ensures Parse("abcv") == None
  {
    assert !Accepts("abcv");
    ParseSucceedsIffAccepted("abcv");
  }

  /** The greatest version wins, here with the greatest listed second;
      `ResolveStoresFirstMaximum` states it for every listing. */
  lemma GreatestVersionWins()
    ensures Resolve(["ts_1v2p.pdf", "ts_1v10p.pdf", "ts_1v3m.pdf"]) == map["ts_1v" := Entry(10, "ts_1v10p.pdf")]
  {
    ParseVersionTwo();
    ParseVersionTen();
    ParseAnyTag('m');
    assert "ts_1v3" + ['m'] + ".pdf" == "ts_1v3m.pdf";
  }

  /** Of two names with the same version, the first listed stays. */
  lemma FirstOfEqualVersionsWins()
    ensures Resolve(["ts_1v3m.pdf", "ts_1v3o.pdf"]) == map["ts_1v" := Entry(3, "ts_1v3m.pdf")]
  {
    ParseAnyTag('m');
    ParseAnyTag('o');
    assert "ts_1v3" + ['m'] + ".pdf" == "ts_1v3m.pdf";
    assert "ts_1v3" + ['o'] + ".pdf" == "ts_1v3o.pdf";
  }

  lemma ParseShortBase()
    ensures Parse("abcv5p.pdf") == Some(Versioned("abcv", 5))
  {
    var n := "abcv5p.pdf";
    assert MatchesWith(n, 4, 1);
    forall k', d' | MatchesWith(n, k', d') ensures k' <= 4 {}
    ParseTakesRightmostMatch(n, 4, 1);
    assert n[..4] == "abcv" && n[4..5] == "5";
    assert DigitsValue("5") == 5 by { assert "5"[..0] == ""; }
  }

  /** A name without a tag letter before the extension is not versioned. */
  lemma ParseUntaggedThree()
    ensures Parse("tr_22v3.pdf") == None
  {
    var n := "tr_22v3.pdf";
    forall k, d | MatchesWith(n, k, d) ensures false {}
    ParseSucceedsIffAccepted(n);
  }

  lemma ParseUntaggedOne()
    ensures Parse("tr_22v1.pdf") == None
  {
    var n := "tr_22v1.pdf";
    forall k, d | MatchesWith(n, k, d) ensures false {}
    ParseSucceedsIffAccepted(n);
  }

  /** A name without a `v` is not versioned. */
  lemma NoMarkerCase(n: string)
    requires n == "ts_21.pdf" || n == "misc.pdf"
    ensures Parse(n) == None
  {
    forall k, d | MatchesWith(n, k, d) ensures false {}
    ParseSucceedsIffAccepted(n);
  }

  /** Names of the form `tr_22v3.pdf` are all unmatched, so each is copied
      under its own name, whatever its apparent version. */
  lemma UntaggedNamesAllKept()
    ensures Canonical(Resolve(["ts_21.pdf", "tr_22v1.pdf", "tr_22v3.pdf", "misc.pdf"]))
            == {"ts_21.pdf", "tr_22v1.pdf", "tr_22v3.pdf", "misc.pdf"}
  {
    NoMarkerCase("ts_21.pdf");
    ParseUntaggedOne();
    ParseUntaggedThree();
    NoMarkerCase("misc.pdf");
    var files := ["ts_21.pdf", "tr_22v1.pdf", "tr_22v3.pdf", "misc.pdf"];
    var m1 := map["ts_21.pdf" := Entry(0, "ts_21.pdf")];
    var m2 := m1["tr_22v1.pdf" := Entry(0, "tr_22v1.pdf")];
    var m3 := m2["tr_22v3.pdf" := Entry(0, "tr_22v3.pdf")];
    var m4 := m3["misc.pdf" := Entry(0, "misc.pdf")];
    assert ResolvePrefix(Parse, files, 1) == m1;
    assert ResolvePrefix(Parse, files, 2) == m2;
    assert ResolvePrefix(Parse, files, 3) == m3;
    assert Resolve(files) == m4;
    assert Canonical(m4) == {"ts_21.pdf", "tr_22v1.pdf", "tr_22v3.pdf", "misc.pdf"} by {
      assert m4.Keys == {"ts_21.pdf", "tr_22v1.pdf", "tr_22v3.pdf", "misc.pdf"};
      assert forall k :: k in m4 ==> m4[k].file == k;
    }
  }

  /** An unmatched name equal to a versioned name's base takes over its
      entry: the versioned file is not copied. */
  lemma UnmatchedNameShadowsBase()
    ensures Resolve(["abcv5p.pdf", "abcv"]) == map["abcv" := Entry(0, "abcv")]
  {
    ParseNoExtension();
    ParseShortBase();
  }

  /** A specification goes to `ts`, an unprefixed name stays at the top. */
  lemma RoutingCase()
    ensures "ts_1v10p.pdf" in Sorted({"ts_1v10p.pdf", "misc.pdf"}).dirs[TS]
    ensures "misc.pdf" in Sorted({"ts_1v10p.pdf", "misc.pdf"}).files
  {
    var copied := {"ts_1v10p.pdf", "misc.pdf"};
    SortedRoutesByPrefix(copied, TS, "ts_1v10p.pdf");
    SortedKeepsUnprefixed(copied, "misc.pdf");
    assert Prefix(TS) <= "ts_1v10p.pdf";
    forall c ensures !(Prefix(c) <= "misc.pdf") {}
  }

  /** A file named like a category directory stops the pass. */
  lemma FileNamedTsStopsCase()
    ensures Organize({"ts", "ts_1v10p.pdf"}) == Failure(FileInTheWay("ts"))
  {
  }

  /** The directory the specifications are routed to and read from. */
  lemma CategoryDirCase()
    ensures CategoryDir(TS) == "./unique_pdfs/ts"
  {
  }

  /** The path a routed specification is opened under. */
  lemma RoutedPathCase()
    ensures Join("./unique_pdfs/ts", "ts_1v10p.pdf") == "./unique_pdfs/ts/ts_1v10p.pdf"
  {
  }

  /** The collection the specifications are indexed into. */
  lemma CollectionCase()
    ensures CollectionKey(DbPath, CollectionName(TS)) == CollectionKey("3gpp_db", "ts_docs")
  {
  }
}
