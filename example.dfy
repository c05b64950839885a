/**
 * A worked example of `query()` (src/lib/query-builder.ts:20-60), and how the
 * serializer writes the bracketed and comma-joined names and values it produces.
 */
module QueryExample {
  import opened Wrappers
  import opened Text
  import opened Values
  import opened FormUrlEncoded
  import opened QueryBuilder

  /** The options of the worked example. */
  const ExampleOptions := QueryOptions(Some(["id", "name"]), Some([("name", Str("Jo"))]), None,
                                       Some([SortSpec("id", ASC)]), Some(2), Some(10), Some(true))

  lemma ExampleParams()
    ensures Params(ExampleOptions)
         == [("fields", "id,name"), ("search[name]", "Jo"), ("sort[0][field]", "id"), ("sort[0][order]", "ASC"),
             ("page", "2"), ("limit", "10"), ("resetCache", "true")]
  {
    assert Join(["id", "name"], ',') == "id,name";
    assert NatToString(0) == "0";
    assert IntToString(2) == "2";
    assert IntToString(10) == "10" by {
      assert NatToString(10) == NatToString(1) + [DigitChar(0)];
    }
    var es := [("name", Str("Jo"))];
    assert es[..0] == [];
    assert SearchKey("name") == "search[name]";
    assert ToString(Str("Jo")) == "Jo";
    assert SearchParams(es) == SearchParams(es[..0]) + [(SearchKey("name"), ToString(Str("Jo")))];
    var ss := [SortSpec("id", ASC)];
    assert ss[..0] == [];
    assert SortFieldKey(0) == "sort[0][field]";
    assert SortOrderKey(0) == "sort[0][order]";
    assert SortParams(ss) == SortParams(ss[..0]) + [(SortFieldKey(0), "id"), (SortOrderKey(0), OrderName(ASC))];
  }

  lemma EncodePercentBrackets()
    ensures PercentByte('[' as int) == "%5B" && PercentByte(']' as int) == "%5D"
  {
  }

  /** `[sub]` is written `%5Bsub%5D` for unreserved `sub`. */
  lemma {:induction false} EncodeBracket(sub: string)
    requires forall i :: 0 <= i < |sub| ==> IsUnreserved(sub[i])
    ensures Encode("[" + sub + "]") == "%5B" + sub + "%5D"
  {
    EncodeReserved('[');
    EncodeReserved(']');
    EncodePercentBrackets();
    EncodeUnreserved(sub);
    assert "[" + sub + "]" == "[" + (sub + "]");
    EncodeConcat("[", sub + "]");
    EncodeConcat(sub, "]");
  }

  /** `w[sub]` is written `w%5Bsub%5D` for unreserved `w` and `sub`. */
  lemma {:induction false} EncodeBracketAfter(w: string, sub: string)
    requires forall i :: 0 <= i < |w| ==> IsUnreserved(w[i])
    requires forall i :: 0 <= i < |sub| ==> IsUnreserved(sub[i])
    ensures Encode(w + ("[" + sub + "]")) == w + ("%5B" + sub + "%5D")
  {
    EncodeUnreserved(w);
    EncodeBracket(sub);
    EncodeConcat(w, "[" + sub + "]");
  }

  /** A `search[k]` name is written `search%5Bk%5D` when `k` is made of unreserved characters. */
  lemma {:induction false} EncodeSearchKey(k: string)
    requires forall i :: 0 <= i < |k| ==> IsUnreserved(k[i])
    ensures Encode(SearchKey(k)) == "search" + ("%5B" + k + "%5D")
  {
    EncodeBracketAfter("search", k);
    assert SearchKey(k) == "search" + ("[" + k + "]");
  }

  /** `a,b` is written `a%2Cb` for unreserved `a` and `b`. */
  lemma {:induction false} EncodeCommaPair(a: string, b: string)
    requires forall i :: 0 <= i < |a| ==> IsUnreserved(a[i])
    requires forall i :: 0 <= i < |b| ==> IsUnreserved(b[i])
    ensures Encode(a + "," + b) == a + "%2C" + b
  {
    EncodeReserved(',');
    assert PercentByte(',' as int) == "%2C";
    EncodeUnreserved(a);
    EncodeUnreserved(b);
    assert a + "," + b == a + ("," + b);
    EncodeConcat(a, "," + b);
    EncodeConcat(",", b);
  }

  /** `w[d][x]` is written `w%5Bd%5D%5Bx%5D` for unreserved `w`, `d` and `x`. */
  lemma {:induction false} EncodeTwoBracketsAfter(w: string, d: string, x: string)
    requires forall i :: 0 <= i < |w| ==> IsUnreserved(w[i])
    requires forall i :: 0 <= i < |d| ==> IsUnreserved(d[i])
    requires forall i :: 0 <= i < |x| ==> IsUnreserved(x[i])
    ensures Encode(w + ("[" + d + "]") + ("[" + x + "]")) == w + ("%5B" + d + "%5D") + ("%5B" + x + "%5D")
  {
    EncodeBracketAfter(w, d);
    EncodeBracket(x);
    EncodeConcat(w + ("[" + d + "]"), "[" + x + "]");
  }

  /** A `sort[i][w]` name is written `sort%5Bi%5D%5Bw%5D` for unreserved `i` and `w`. */
  lemma {:induction false} EncodeSortKey(d: string, w: string)
    requires forall i :: 0 <= i < |d| ==> IsUnreserved(d[i])
    requires forall i :: 0 <= i < |w| ==> IsUnreserved(w[i])
    ensures Encode("sort" + ("[" + d + "]") + ("[" + w + "]")) == "sort" + ("%5B" + d + "%5D") + ("%5B" + w + "%5D")
  {
    EncodeTwoBracketsAfter("sort", d, w);
  }

  /** A pair of unreserved texts is written as it stands. */
  lemma PlainPiece(name: string, value: string)
    requires forall i :: 0 <= i < |name| ==> IsUnreserved(name[i])
    requires forall i :: 0 <= i < |value| ==> IsUnreserved(value[i])
    ensures PairString((name, value)) == name + "=" + value
  {
    EncodeUnreserved(name);
    EncodeUnreserved(value);
  }

  /** A pair whose value joins two unreserved texts with a comma. */
  lemma CommaPairPiece(name: string, a: string, b: string)
    requires forall i :: 0 <= i < |name| ==> IsUnreserved(name[i])
    requires forall i :: 0 <= i < |a| ==> IsUnreserved(a[i])
    requires forall i :: 0 <= i < |b| ==> IsUnreserved(b[i])
    ensures PairString((name, a + "," + b)) == name + "=" + (a + "%2C" + b)
  {
    EncodeUnreserved(name);
    EncodeCommaPair(a, b);
  }

  /** A `search[k]=v` pair of unreserved `k` and `v`. */
  lemma SearchPairPiece(k: string, v: string)
    requires forall i :: 0 <= i < |k| ==> IsUnreserved(k[i])
    requires forall i :: 0 <= i < |v| ==> IsUnreserved(v[i])
    ensures PairString(("search" + ("[" + k + "]"), v)) == "search" + ("%5B" + k + "%5D") + "=" + v
  {
    EncodeSearchKey(k);
    EncodeUnreserved(v);
    assert SearchKey(k) == "search" + ("[" + k + "]");
  }

  /** A `sort[d][w]=v` pair of unreserved `d`, `w` and `v`. */
  lemma SortPairPiece(d: string, w: string, v: string)
    requires forall i :: 0 <= i < |d| ==> IsUnreserved(d[i])
    requires forall i :: 0 <= i < |w| ==> IsUnreserved(w[i])
    requires forall i :: 0 <= i < |v| ==> IsUnreserved(v[i])
    ensures PairString(("sort" + ("[" + d + "]") + ("[" + w + "]"), v))
         == "sort" + ("%5B" + d + "%5D") + ("%5B" + w + "%5D") + "=" + v
  {
    EncodeSortKey(d, w);
    EncodeUnreserved(v);
  }

  // The seven pairs of the worked example, with the bracketed and comma-joined
  // texts kept as the concatenations `query()` builds them from.

  const FieldsPair := ("fields", "id" + "," + "name")
  const SearchPair := ("search" + ("[" + "name" + "]"), "Jo")
  const SortFieldPair := ("sort" + ("[" + "0" + "]") + ("[" + "field" + "]"), "id")
  const SortOrderPair := ("sort" + ("[" + "0" + "]") + ("[" + "order" + "]"), "ASC")
  const PagePair := ("page", "2")
  const LimitPair := ("limit", "10")
  const ResetCachePair := ("resetCache", "true")

  /** The worked example's pairs, as a chain of one-pair sequences. */
  lemma ExampleParamPairs()
    ensures Params(ExampleOptions)
         == [FieldsPair]
          + ([SearchPair]
          + ([SortFieldPair]
          + ([SortOrderPair]
          + ([PagePair] + ([LimitPair] + [ResetCachePair])))))
  {
    ExampleParams();
    assert "id" + "," + "name" == "id,name";
    assert "search" + ("[" + "name" + "]") == "search[name]";
    assert "sort" + ("[" + "0" + "]") + ("[" + "field" + "]") == "sort[0][field]";
    assert "sort" + ("[" + "0" + "]") + ("[" + "order" + "]") == "sort[0][order]";
  }

  // The worked example one pair at a time: each pair's piece, then the pieces
  // of the pairs from each one to the end.

  /** The bracketed and comma-joined pieces of the worked example, spelled out. */
  lemma ExampleEncodedSpellings()
    ensures "fields" + "=" + ("id" + "%2C" + "name") == "fields=id%2Cname"
    ensures "search" + ("%5B" + "name" + "%5D") + "=" + "Jo" == "search%5Bname%5D=Jo"
    ensures "sort" + ("%5B" + "0" + "%5D") + ("%5B" + "field" + "%5D") + "=" + "id" == "sort%5B0%5D%5Bfield%5D=id"
    ensures "sort" + ("%5B" + "0" + "%5D") + ("%5B" + "order" + "%5D") + "=" + "ASC" == "sort%5B0%5D%5Border%5D=ASC"
  {
  }

  /** The plain pieces of the worked example, spelled out. */
  lemma ExamplePlainSpellings()
    ensures "page" + "=" + "2" == "page=2"
    ensures "limit" + "=" + "10" == "limit=10"
    ensures "resetCache" + "=" + "true" == "resetCache=true"
  {
  }

  /** The worked example's pieces, as the query string spells them. */
  const FieldsText := "fields=id%2Cname"
  const SearchText := "search%5Bname%5D=Jo"
  const SortFieldText := "sort%5B0%5D%5Bfield%5D=id"
  const SortOrderText := "sort%5B0%5D%5Border%5D=ASC"
  const PageText := "page=2"
  const LimitText := "limit=10"
  const ResetCacheText := "resetCache=true"

  lemma FieldsPiece()
    ensures PairString(FieldsPair) == FieldsText
  {
    CommaPairPiece("fields", "id", "name");
    ExampleEncodedSpellings();
  }

  lemma SearchPiece()
    ensures PairString(SearchPair) == SearchText
  {
    SearchPairPiece("name", "Jo");
    ExampleEncodedSpellings();
  }

  lemma SortFieldPiece()
    ensures PairString(SortFieldPair) == SortFieldText
  {
    SortPairPiece("0", "field", "id");
    ExampleEncodedSpellings();
  }

  lemma SortOrderPiece()
    ensures PairString(SortOrderPair) == SortOrderText
  {
    SortPairPiece("0", "order", "ASC");
    ExampleEncodedSpellings();
  }

  lemma PagePiece()
    ensures PairString(PagePair) == PageText
  {
    PlainPiece("page", "2");
    ExamplePlainSpellings();
  }

  lemma LimitPiece()
    ensures PairString(LimitPair) == LimitText
  {
    PlainPiece("limit", "10");
    ExamplePlainSpellings();
  }

  lemma ResetCachePiece()
    ensures PairString(ResetCachePair) == ResetCacheText
  {
    PlainPiece("resetCache", "true");
    ExamplePlainSpellings();
  }

  /** One more pair in front adds its piece in front. */
  lemma ConsPiece(p: (string, string), ps: seq<(string, string)>, piece: string, pieces: seq<string>)
    requires PairString(p) == piece && PairStrings(ps) == pieces
    ensures PairStrings([p] + ps) == [piece] + pieces
  {
    assert ([p] + ps)[1..] == ps;
  }

  /** The pieces from the `resetCache` pair on. */
  lemma PiecesFromResetCache()
    ensures PairStrings([ResetCachePair])
         == [ResetCacheText]
  {
    ResetCachePiece();
    ConsPiece(ResetCachePair, [], ResetCacheText, []);
  }

  /** The pieces from the `limit` pair on. */
  lemma PiecesFromLimit()
    ensures PairStrings([LimitPair] + [ResetCachePair])
         == [LimitText] + [ResetCacheText]
  {
    PiecesFromResetCache();
    LimitPiece();
    ConsPiece(LimitPair, [ResetCachePair], LimitText, [ResetCacheText]);
  }

  /** The pieces from the `page` pair on. */
  lemma PiecesFromPage()
    ensures PairStrings([PagePair] + ([LimitPair] + [ResetCachePair]))
         == [PageText] + ([LimitText] + [ResetCacheText])
  {
    PiecesFromLimit();
    PagePiece();
    ConsPiece(PagePair, [LimitPair] + [ResetCachePair], PageText, [LimitText] + [ResetCacheText]);
  }

  /** The pieces from the `sort[0][order]` pair on. */
  lemma PiecesFromSortOrder()
    ensures PairStrings([SortOrderPair] + ([PagePair] + ([LimitPair] + [ResetCachePair])))
         == [SortOrderText] + ([PageText] + ([LimitText] + [ResetCacheText]))
  {
    PiecesFromPage();
    SortOrderPiece();
    ConsPiece(SortOrderPair, [PagePair] + ([LimitPair] + [ResetCachePair]), SortOrderText, [PageText] + ([LimitText] + [ResetCacheText]));
  }

  /** The pieces from the `sort[0][field]` pair on. */
  lemma PiecesFromSortField()
    ensures PairStrings([SortFieldPair] + ([SortOrderPair] + ([PagePair] + ([LimitPair] + [ResetCachePair]))))
         == [SortFieldText] + ([SortOrderText] + ([PageText] + ([LimitText] + [ResetCacheText])))
  {
    PiecesFromSortOrder();
    SortFieldPiece();
    ConsPiece(SortFieldPair, [SortOrderPair] + ([PagePair] + ([LimitPair] + [ResetCachePair])), SortFieldText, [SortOrderText] + ([PageText] + ([LimitText] + [ResetCacheText])));
  }

  /** The pieces from the `search[name]` pair on. */
  lemma PiecesFromSearch()
    ensures PairStrings([SearchPair] + ([SortFieldPair] + ([SortOrderPair] + ([PagePair] + ([LimitPair] + [ResetCachePair])))))
         == [SearchText] + ([SortFieldText] + ([SortOrderText] + ([PageText] + ([LimitText] + [ResetCacheText]))))
  {
    PiecesFromSortField();
    SearchPiece();
    ConsPiece(SearchPair, [SortFieldPair] + ([SortOrderPair] + ([PagePair] + ([LimitPair] + [ResetCachePair]))), SearchText, [SortFieldText] + ([SortOrderText] + ([PageText] + ([LimitText] + [ResetCacheText]))));
  }

  /** The pieces from the `fields` pair on. */
  lemma PiecesFromFields()
    ensures PairStrings([FieldsPair] + ([SearchPair] + ([SortFieldPair] + ([SortOrderPair] + ([PagePair] + ([LimitPair] + [ResetCachePair]))))))
         == [FieldsText] + ([SearchText] + ([SortFieldText] + ([SortOrderText] + ([PageText] + ([LimitText] + [ResetCacheText])))))
  {
    PiecesFromSearch();
    FieldsPiece();
    ConsPiece(FieldsPair, [SearchPair] + ([SortFieldPair] + ([SortOrderPair] + ([PagePair] + ([LimitPair] + [ResetCachePair])))), FieldsText, [SearchText] + ([SortFieldText] + ([SortOrderText] + ([PageText] + ([LimitText] + [ResetCacheText])))));
  }

  lemma ExamplePieceList()
    ensures [FieldsText] + ([SearchText] + ([SortFieldText] + ([SortOrderText] + ([PageText] + ([LimitText] + [ResetCacheText])))))
         == ["fields=id%2Cname", "search%5Bname%5D=Jo", "sort%5B0%5D%5Bfield%5D=id", "sort%5B0%5D%5Border%5D=ASC",
             "page=2", "limit=10", "resetCache=true"]
  {
  }

  /**
   * The worked example as `name=value` pieces: the comma of `fields` and the
   * brackets of the search and sort names are percent-encoded. The query string
   * is these pieces joined with `&`.
   */
  lemma ExamplePieces()
    ensures PairStrings(Params(ExampleOptions))
         == ["fields=id%2Cname", "search%5Bname%5D=Jo", "sort%5B0%5D%5Bfield%5D=id", "sort%5B0%5D%5Border%5D=ASC",
             "page=2", "limit=10", "resetCache=true"]
  {
    ExampleParamPairs();
    PiecesFromFields();
    ExamplePieceList();
  }

  /** The worked example's whole query string: its seven pieces joined with `&`. */
  lemma ExampleQuery()
    ensures QueryString(ExampleOptions)
         == Join(["fields=id%2Cname", "search%5Bname%5D=Jo", "sort%5B0%5D%5Bfield%5D=id", "sort%5B0%5D%5Border%5D=ASC",
                  "page=2", "limit=10", "resetCache=true"], '&')
  {
    ExamplePieces();
  }
}
