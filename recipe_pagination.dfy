/** The pagination bar under the home feed: four links that keep the
    current query except its `page` entries, and the page-number rules that
    style them as disabled or mark them `aria-disabled`. */
module RecipePagination {
  import opened Optional
  import JsText
  import opened UrlSearchParams

  datatype Link = Link(href: string, styledDisabled: bool, ariaDisabled: bool)

  datatype Bar = Bar(first: Link, previous: Link, next: Link, last: Link)

  /** The carried query: the current pairs without any `page` pair. */
  function Carried(search: seq<Param>): seq<Param> {
    Drop(search, {"page"})
  }

  /** The query text the links carry: the carried pairs behind an `&`,
      or nothing when no pair is left. */
  function CarriedText(search: seq<Param>): string {
    if Carried(search) == [] then "" else "&" + Serialize(Carried(search))
  }

  /** The carried text never holds a `page` pair and can follow a page
      number directly: it is empty or starts with `&`. */
  lemma CarriedTextShape(search: seq<Param>)
    ensures CarriedText(search) == "" || CarriedText(search)[0] == '&'
    ensures CarriedText(search) == "" <==> Carried(search) == []
    ensures !HasName(Carried(search), "page")
    ensures forall k :: k != "page" ==> Get(Carried(search), k) == Get(search, k)
  {
    DropHasName(search, {"page"}, "page");
    forall k | k != "page" ensures Get(Carried(search), k) == Get(search, k) {
      GetDrop(search, {"page"}, k);
    }
  }

  /** Built through a `URLSearchParams` object, as the component does. */
  method QueryParams(search: seq<Param>) returns (qp: string)
    ensures qp == CarriedText(search)
  {
    var params := new SearchParams(search);
    params.Delete("page");
    var text := params.ToString();
    SerializeEmpty(Carried(search));
    qp := if text != "" then "&" + text else "";
  }

  /** The links for page `page` of `totalPages`, given the carried query. */
  function Links(qp: string, page: int, totalPages: int): Bar {
    Bar(
      Link("/home?" + qp, page <= 1, page == 1),
      Link("/home?page=" + JsText.IntToDecimal(page - 1) + qp, page <= 1, page > 1),
      Link("/home?page=" + JsText.IntToDecimal(page + 1) + qp, page == totalPages, page == totalPages),
      Link("/home?page=" + JsText.IntToDecimal(totalPages) + qp, page == totalPages, page == totalPages))
  }

  const PagePrefix: string := "/home?page="

  /** The page a link opens, as the home page reads it: the `page` value
      is the text after `/home?page=` up to the next `&`, read with
      `parseInt`; a link without it opens the default page. */
  function LinkPage(href: string): Option<int> {
    if |href| >= |PagePrefix| && href[..|PagePrefix|] == PagePrefix then
      JsText.ParseInt(JsText.Split(href[|PagePrefix|..], '&')[0])
    else None
  }

  /** The first `&`-piece of `d + qp` is `d` when `d` has no `&` and the
      carried query is empty or starts with `&`. */
  lemma FirstPiece(d: string, qp: string)
    requires '&' !in d
    requires qp == "" || qp[0] == '&'
    ensures JsText.Split(d + qp, '&')[0] == d
  {
    if qp == "" {
      assert d + qp == d;
      JsText.SplitWithout(d, '&');
    } else {
      assert d + qp == d + ['&'] + qp[1..];
      JsText.SplitAtFirst(d, qp[1..], '&');
    }
  }

  lemma DecimalReadsBack(n: int)
    ensures '&' !in JsText.IntToDecimal(n)
    ensures JsText.ParseInt(JsText.IntToDecimal(n)) == Some(n)
  {
    var d := JsText.IntToDecimal(n);
    if n < 0 {
      var m := JsText.NatToDecimal(-n);
      assert d == "-" + m;
      assert JsText.AllDigits(m);
      assert forall k :: 0 <= k < |d| ==> d[k] != '&' by {
        forall k | 0 <= k < |d| ensures d[k] != '&' {
          if k > 0 { assert d[k] == m[k - 1]; }
        }
      }
    }
    JsText.ParseIntOfDecimal(n, "");
    assert d + "" == d;
  }

  /** A rendered number followed by the carried query reads back as that
      number. */
  lemma PageValueReadsBack(n: int, qp: string)
    requires qp == "" || qp[0] == '&'
    ensures JsText.ParseInt(JsText.Split(JsText.IntToDecimal(n) + qp, '&')[0]) == Some(n)
  {
    DecimalReadsBack(n);
    FirstPiece(JsText.IntToDecimal(n), qp);
  }

  lemma HrefPage(n: int, qp: string)
    requires qp == "" || qp[0] == '&'
    ensures LinkPage("/home?page=" + JsText.IntToDecimal(n) + qp) == Some(n)
  {
    var h := "/home?page=" + JsText.IntToDecimal(n) + qp;
    assert h[..|PagePrefix|] == PagePrefix;
    assert h[|PagePrefix|..] == JsText.IntToDecimal(n) + qp;
    PageValueReadsBack(n, qp);
  }

  /** First opens the default page; Previous, Next and Last open
      `page - 1`, `page + 1` and `totalPages`; every link ends with the
      carried query. */
  lemma LinkTargets(qp: string, page: int, totalPages: int)
    requires qp == "" || qp[0] == '&'
    ensures LinkPage(Links(qp, page, totalPages).first.href) == None
    ensures LinkPage(Links(qp, page, totalPages).previous.href) == Some(page - 1)
    ensures LinkPage(Links(qp, page, totalPages).next.href) == Some(page + 1)
    ensures LinkPage(Links(qp, page, totalPages).last.href) == Some(totalPages)
  {
    var first := "/home?" + qp;
    if |first| >= |PagePrefix| {
      assert first[6] != PagePrefix[6];
    }
    HrefPage(page - 1, qp);
    HrefPage(page + 1, qp);
    HrefPage(totalPages, qp);
  }

  /** Previous is marked `aria-disabled` exactly when it is styled as
      enabled, the reverse of what the attribute means. */
  lemma PreviousAriaInverted(qp: string, page: int, totalPages: int)
    ensures Links(qp, page, totalPages).previous.ariaDisabled == !Links(qp, page, totalPages).previous.styledDisabled
  {
  }

  /** First and Previous are styled as disabled on page 1 and below; First
      is marked `aria-disabled` only on page 1 itself. */
  lemma FirstFlags(qp: string, page: int, totalPages: int)
    ensures Links(qp, page, totalPages).first.styledDisabled <==> page <= 1
    ensures Links(qp, page, totalPages).previous.styledDisabled <==> page <= 1
    ensures Links(qp, page, totalPages).first.ariaDisabled <==> page == 1
    ensures page < 1 ==> Links(qp, page, totalPages).first.styledDisabled && !Links(qp, page, totalPages).first.ariaDisabled
  {
  }

  /** Next and Last are disabled only on exactly the last page: a page
      past the end leaves them enabled. */
  lemma LastFlags(qp: string, page: int, totalPages: int)
    ensures Links(qp, page, totalPages).next.styledDisabled <==> page == totalPages
    ensures Links(qp, page, totalPages).last.styledDisabled <==> page == totalPages
    ensures Links(qp, page, totalPages).next.ariaDisabled == Links(qp, page, totalPages).next.styledDisabled
    ensures page > totalPages ==> !Links(qp, page, totalPages).next.styledDisabled && !Links(qp, page, totalPages).last.styledDisabled
  {
  }

  /** The whole bar: the carried query is computed once, then the links. */
  method RenderBar(search: seq<Param>, page: int, totalPages: int) returns (bar: Bar)
    ensures LinkPage(bar.first.href) == None
    ensures LinkPage(bar.previous.href) == Some(page - 1)
    ensures LinkPage(bar.next.href) == Some(page + 1)
    ensures LinkPage(bar.last.href) == Some(totalPages)
    ensures bar == Links(CarriedText(search), page, totalPages)
  {
    var qp := QueryParams(search);
    CarriedTextShape(search);
    LinkTargets(qp, page, totalPages);
    bar := Links(qp, page, totalPages);
  }
}
