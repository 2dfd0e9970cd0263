/** A list served in pages, and the clients that put it together again. */
module Paging {
  import opened Int64
  import opened Links
  import opened Query
  import opened Text
  import opened Wrappers

  const DEFAULT_PAGE_SIZE := 500
  const MAX_PAGE_SIZE := 500

  datatype Params = Params(page: int, size: int)

  function IntParam(url: string, key: string, default: int): Option<int> {
    var text := GetParam(url, key);
    if text == "" then Some(default) else ParseInt64(text)
  }

  function GetPaginationParams(url: string): (r: Option<Params>)
    ensures r.Some? ==> r.value.page >= 1 && 1 <= r.value.size <= 500
  {
    match (IntParam(url, "page", 1), IntParam(url, "page_size", DEFAULT_PAGE_SIZE))
    case (Some(page), Some(size)) =>
      if page <= 0 || size <= 0 then None
      else Some(Params(page, if size > MAX_PAGE_SIZE then MAX_PAGE_SIZE else size))
    case _ => None
  }

  function SetPage(url: string, page: int): string {
    PageUrl(Path(url), page, GetParam(url, "page_size"))
  }

  predicate HasPrevious(total: int, page: int, size: int) {
    page > 1 && Wrap((page - 1) * size) <= total
  }

  predicate HasNext(total: int, page: int, size: int) {
    Wrap(size * page) < total
  }

  /** The links a page carries. */
  function Offered(total: int, page: int, size: int, url: string): seq<Link> {
    (if HasPrevious(total, page, size) then [Link(SetPage(url, page - 1), "prev", map[])] else [])
    + (if HasNext(total, page, size) then [Link(SetPage(url, Wrap(page + 1)), "next", map[])] else [])
  }

  function Header(links: seq<Link>): string
    requires forall i :: 0 <= i < |links| ==> links[i].attrs == map[]
  {
    Join(seq(|links|, i requires 0 <= i < |links| => Print(links[i], [])), ", ")
  }

  lemma JoinTwo(a: string, b: string, sep: string)
    ensures Join([a], sep) == a && Join([a, b], sep) == a + sep + b
  {
    var both := [a, b];
    assert both[1..] == [b];
  }

  lemma PrintPlain(url: string, rel: string)
    requires rel != ""
    ensures Print(Link(url, rel, map[]), []) == "<" + url + ">; rel=\"" + rel + "\""
  {
    var l := Link(url, rel, map[]);
    assert Parts(l, []) == ["<" + url + ">", Param("rel", rel)];
    JoinTwo("<" + url + ">", Param("rel", rel), "; ");
  }

  lemma HeaderOfOffered(total: int, page: int, size: int, url: string)
    ensures var prev := "<" + SetPage(url, page - 1) + ">; rel=\"prev\"";
      var next := "<" + SetPage(url, Wrap(page + 1)) + ">; rel=\"next\"";
      Header(Offered(total, page, size, url)) ==
        if !HasNext(total, page, size) then if HasPrevious(total, page, size) then prev else ""
        else if HasPrevious(total, page, size) then prev + ", " + next else next
  {
    hide SetPage, HasNext, HasPrevious, Print, Wrap;
    PrintPlain(SetPage(url, page - 1), "prev");
    PrintPlain(SetPage(url, Wrap(page + 1)), "next");
    var prev, next := Link(SetPage(url, page - 1), "prev", map[]), Link(SetPage(url, Wrap(page + 1)), "next", map[]);
    JoinTwo(Print(prev, []), Print(next, []), ", ");
    JoinTwo(Print(next, []), "", ", ");
    var links := Offered(total, page, size, url);
    var strs := seq(|links|, i requires 0 <= i < |links| => Print(links[i], []));
    assert links == [prev, next] ==> strs == [Print(prev, []), Print(next, [])];
    assert links == [prev] ==> strs == [Print(prev, [])];
    assert links == [next] ==> strs == [Print(next, [])];
  }

  method SetPaginationHeader(total: int, page: int, size: int, url: string) returns (link: string)
    ensures link == Header(Offered(total, page, size, url))
  {
    HeaderOfOffered(total, page, size, url);
    hide SetPage, Header, Offered;
    link := "";
    if page > 1 && Wrap((page - 1) * size) <= total {
      link := link + "<" + SetPage(url, page - 1) + ">; rel=\"prev\"";
    }
    if Wrap(size * page) < total {
      if |link| != 0 {
        link := link + ", ";
      }
      link := link + "<" + SetPage(url, Wrap(page + 1)) + ">; rel=\"next\"";
    }
  }

  /** A client reads the links of a page back, if and only if no URL holds a comma or a semicolon. */
  lemma HeaderIsRead(links: seq<Link>)
    requires forall i :: 0 <= i < |links| ==> links[i].attrs == map[] && links[i].url != "" && GoodValue(links[i].rel)
    ensures Parse(Header(links)) == links <==> forall i :: 0 <= i < |links| ==> Unbroken(links[i].url)
  {
    ParseYieldsGoodLinks(Header(links));
    if forall i :: 0 <= i < |links| ==> Unbroken(links[i].url) {
      CleanHeaderIsRead(links);
    }
  }

  lemma CleanHeaderIsRead(links: seq<Link>)
    requires AllGood(links) && forall i :: 0 <= i < |links| ==> links[i].attrs == map[]
    ensures Parse(Header(links)) == links
  {
    if links == [] {
      assert ParseLink("").url == "" && Split("", ',') == [""];
    } else {
      hide GoodLink, Print, Padded, ParsePieces, Split;
      var strs := seq(|links|, i requires 0 <= i < |links| => Print(links[i], []));
      var orders := seq(|links|, i => []);
      forall i | 0 <= i < |strs| ensures Lacks(strs[i], ',') {
        PrintLacksComma(links[i], []);
      }
      assert "" + [','] + " " == ", ";
      assert "" + Join(strs, ", ") + "" == Header(links);
      SplitJoin(strs, "", "", "", ',', " ");
      ParsePrintedPieces(Split(Header(links), ','), links, orders);
    }
  }

  /** The rows of one page: those from the offset, as many as fit; none when the query fails. */
  function Rows<T>(items: seq<T>, page: int, size: int): Option<seq<T>>
    requires page >= 1 && size >= 1
  {
    var offset := Wrap(size * (page - 1));
    if offset < 0 then None
    else if offset >= |items| then Some([])
    else Some(items[offset..if offset + size < |items| then offset + size else |items|])
  }

  method Serve<T>(items: seq<T>, url: string) returns (rows: Option<seq<T>>, link: string)
    ensures match GetPaginationParams(url)
      case None => rows.None?
      case Some(p) =>
        && rows == Rows(items, p.page, p.size)
        && link == Header(Offered(|items|, p.page, p.size, url))
  {
    match GetPaginationParams(url) {
      case None => rows, link := None, "";
      case Some(p) =>
        rows := Rows(items, p.page, p.size);
        link := SetPaginationHeader(|items|, p.page, p.size, url);
    }
  }

  // How many pages there are

  ghost function LastPage(total: nat, size: int): nat
    requires size >= 1
  {
    if total == 0 then 1 else (total - 1) / size + 1
  }

  lemma LastPageBounds(total: nat, size: int)
    requires size >= 1
    ensures var last := LastPage(total, size);
      last >= 1 && total <= last * size && (total > 0 ==> (last - 1) * size < total)
  {
    if total > 0 {
      var q, r := (total - 1) / size, (total - 1) % size;
      assert total - 1 == q * size + r;
      assert (q + 1) * size == q * size + size;
    }
  }

  lemma Monotone(a: int, b: int, size: int)
    requires a <= b && size >= 1
    ensures a * size <= b * size
  {
  }

  /** Every page but the last leads to the next one; the last does not, if and only if the end
      of its range is a 64-bit number. */
  lemma NextIsOfferedUntilTheLast(total: nat, page: nat, size: int)
    requires total <= MAX_INT64 && 1 <= size <= MAX_PAGE_SIZE && 1 <= page <= LastPage(total, size)
    ensures page < LastPage(total, size) ==> HasNext(total, page, size)
    ensures page == LastPage(total, size) ==> (HasNext(total, page, size) <==> page * size > MAX_INT64)
  {
    var last := LastPage(total, size);
    LastPageBounds(total, size);
    if page < last {
      Monotone(page, last - 1, size);
      assert size * page == page * size;
    } else {
      assert size * page == page * size == (page - 1) * size + size;
    }
  }

  /** A multiple of `size` is within `total` exactly when the factor is within the quotient. */
  lemma Quotient(total: nat, a: nat, size: int)
    requires size >= 1
    ensures a * size <= total <==> a <= total / size
  {
    var q, r := total / size, total % size;
    assert total == q * size + r;
    if a <= q {
      Monotone(a, q, size);
    } else {
      Monotone(q + 1, a, size);
      assert (q + 1) * size == q * size + size;
    }
  }

  /** Every page but the first leads back, as far as the page right after the last item. */
  lemma PreviousIsOffered(total: nat, page: nat, size: int)
    requires 1 <= size && 1 <= page && IsInt64((page - 1) * size)
    ensures HasPrevious(total, page, size) <==> 1 < page <= total / size + 1
    ensures page <= LastPage(total, size) ==> (HasPrevious(total, page, size) <==> page > 1)
  {
    Quotient(total, page - 1, size);
    LastPageBounds(total, size);
    if 1 < page <= LastPage(total, size) {
      Monotone(page - 1, LastPage(total, size) - 1, size);
    }
  }

  // The client that follows the links

  function NextUrl(links: seq<Link>): string {
    if links == [] then "" else if links[0].rel == "next" then links[0].url else NextUrl(links[1..])
  }

  function SizeText(asked: Option<int>): string {
    if asked.Some? then Format(asked.value) else ""
  }

  function Size(asked: Option<int>): (size: int)
    requires asked.Some? ==> asked.value >= 1
    ensures size == if asked.Some? && asked.value <= 500 then asked.value else 500
  {
    if asked.None? then DEFAULT_PAGE_SIZE else if asked.value > MAX_PAGE_SIZE then MAX_PAGE_SIZE else asked.value
  }

  lemma SizeTextIsClean(asked: Option<int>)
    requires asked.Some? ==> IsInt64(asked.value)
    ensures Lacks(SizeText(asked), '&') && Unbroken(SizeText(asked))
    ensures SizeText(asked) == "" <==> asked.None?
    ensures asked.Some? ==> ParseInt64(SizeText(asked)) == asked
  {
    if asked.Some? {
      FormatRoundTrip(asked.value);
    }
  }

  lemma ParamsAreRead(path: string, page: int, asked: Option<int>)
    requires Lacks(path, '?') && 1 <= page <= MAX_INT64 && (asked.Some? ==> IsInt64(asked.value))
    ensures var url := PageUrl(path, page, SizeText(asked));
      GetPaginationParams(url) ==
        if asked.Some? && asked.value <= 0 then None else Some(Params(page, Size(asked)))
    ensures forall p :: SetPage(PageUrl(path, page, SizeText(asked)), p) == PageUrl(path, p, SizeText(asked))
  {
    hide PageUrl, GetParam, Path, SizeText, ParseInt64;
    SizeTextIsClean(asked);
    PageUrlIsRead(path, page, SizeText(asked));
  }

  lemma PageUrlIsClean(path: string, page: int, asked: Option<int>)
    requires Unbroken(path) && IsInt64(page) && (asked.Some? ==> IsInt64(asked.value))
    ensures Unbroken(PageUrl(path, page, SizeText(asked))) && PageUrl(path, page, SizeText(asked)) != ""
  {
    hide Format;
    FormatRoundTrip(page);
    SizeTextIsClean(asked);
  }

  /** The whole list can be paged through in 64 bits. */
  ghost predicate InRange(total: nat, size: int)
    requires size >= 1
  {
    total <= MAX_INT64 && LastPage(total, size) * size <= MAX_INT64
  }

  /** What the client follows: the next page, if one is offered and its URL survives the header. */
  lemma OfferedIsRead(path: string, total: nat, page: nat, asked: Option<int>)
    requires IsPath(path) && (asked.Some? ==> IsInt64(asked.value) && asked.value >= 1)
    requires 1 <= page <= MAX_INT64
    ensures var url := PageUrl(path, page, SizeText(asked));
      NextUrl(Parse(Header(Offered(total, page, Size(asked), url)))) ==
        if Unbroken(path) && HasNext(total, page, Size(asked)) then PageUrl(path, Wrap(page + 1), SizeText(asked)) else ""
  {
    PathIs(path);
    hide *;
    var size := Size(asked);
    var url := PageUrl(path, page, SizeText(asked));
    ParamsAreRead(path, page, asked);
    if Unbroken(path) {
      OfferedIsClean(path, total, page, asked);
      HeaderIsRead(Offered(total, page, size, url));
      NextOfOffered(total, page, size, url);
    } else {
      HeaderIsLost(path, total, page, asked);
      NoLinkNoNext();
    }
  }

  /** A client finds the page before among the links, exactly when there is one. */
  lemma PreviousIsRead(path: string, total: nat, page: nat, asked: Option<int>)
    requires IsPath(path) && Unbroken(path) && (asked.Some? ==> IsInt64(asked.value) && asked.value >= 1)
    requires total <= MAX_INT64 && 1 <= page <= LastPage(total, Size(asked))
    ensures var links := PageLinks(path, total, page, asked);
      && (page == 1 ==> forall i :: 0 <= i < |links| ==> links[i].rel == "next")
      && (page > 1 ==> links != [] && links[0] == Link(PageUrl(path, page - 1, SizeText(asked)), "prev", map[]))
  {
    PathIs(path);
    var size := Size(asked);
    PageInRange(total, page, size);
    hide PageUrl, SizeText, Header, Parse, HasPrevious, HasNext, LastPage, Unbroken, GoodValue;
    ParamsAreRead(path, page, asked);
    OfferedIsClean(path, total, page, asked);
    HeaderIsRead(Offered(total, page, size, PageUrl(path, page, SizeText(asked))));
  }

  lemma PageInRange(total: nat, page: nat, size: int)
    requires 1 <= size <= MAX_PAGE_SIZE && total <= MAX_INT64 && 1 <= page <= LastPage(total, size)
    ensures page <= MAX_INT64 && (HasPrevious(total, page, size) <==> page > 1)
  {
    NextInPages(total, page, size);
    PageStart(total, page, size, Start(page, size));
    assert Start(page, size) == (page - 1) * size;
    PreviousIsOffered(total, page, size);
  }

  /** The links a client parses from the header of a page. */
  ghost function PageLinks(path: string, total: nat, page: nat, asked: Option<int>): seq<Link>
    requires asked.Some? ==> asked.value >= 1
  {
    Parse(Header(Offered(total, page, Size(asked), PageUrl(path, page, SizeText(asked)))))
  }

  /** The path of a request as it is written into a link: query and brackets are escaped. */
  predicate IsPath(path: string) {
    Lacks(path, '?') && Lacks(path, '<') && Lacks(path, '>')
  }

  lemma PathIs(path: string)
    requires IsPath(path)
    ensures Lacks(path, '?')
  {
  }

  lemma NoLinkNoNext()
    ensures NextUrl([]) == ""
  {
  }

  /** Every opening bracket is followed by the path. */
  predicate Opens(s: string, path: string) {
    && (forall i :: 0 <= i < |s| && s[i] == '<' ==> i + |path| < |s|)
    && (forall i, x :: 0 <= i < x < |s| && s[i] == '<' && x <= i + |path| ==> s[x] == path[x - i - 1])
  }

  lemma OpensTwice(a: string, b: string, path: string)
    requires Opens(a, path) && Opens(b, path)
    ensures Opens(a + b, path)
  {
    var s := a + b;
    assert forall i :: |a| <= i < |s| ==> s[i] == b[i - |a|];
  }

  lemma OpensLink(path: string, page: int, asked: Option<int>, tail: string)
    requires IsPath(path) && IsInt64(page) && (asked.Some? ==> IsInt64(asked.value)) && Lacks(tail, '<')
    ensures Opens("<" + PageUrl(path, page, SizeText(asked)) + tail, path)
  {
    FormatRoundTrip(page);
    SizeTextLacksBracket(asked);
    hide Format, SizeText, Opens;
    var url := PageUrl(path, page, SizeText(asked));
    assert Lacks(url, '<');
    OpensPlain(url, tail, path);
  }

  lemma OpensPlain(url: string, tail: string, path: string)
    requires path <= url && Lacks(url, '<') && Lacks(tail, '<')
    ensures Opens("<" + url + tail, path)
  {
  }

  lemma SizeTextLacksBracket(asked: Option<int>)
    requires asked.Some? ==> IsInt64(asked.value)
    ensures Lacks(SizeText(asked), '<')
  {
    if asked.Some? {
      FormatRoundTrip(asked.value);
    }
  }

  lemma OpensNoUrl(s: string, path: string)
    requires Opens(s, path) && IsPath(path) && !Unbroken(path)
    ensures NoUrl(s)
  {
    var m :| 0 <= m < |path| && (path[m] == ',' || path[m] == ';');
    forall i, j | 0 <= i < j < |s| && s[i] == '<' && s[j] == '>'
      ensures exists k :: i < k < j && (s[k] == ',' || s[k] == ';')
    {
      assert s[i + 1 + m] == path[m];
    }
  }

  /** With a separator in the path no link of the header is read. */
  lemma HeaderIsLost(path: string, total: nat, page: nat, asked: Option<int>)
    requires IsPath(path) && !Unbroken(path) && (asked.Some? ==> IsInt64(asked.value) && asked.value >= 1)
    requires 1 <= page <= MAX_INT64
    ensures Parse(Header(Offered(total, page, Size(asked), PageUrl(path, page, SizeText(asked))))) == []
  {
    var url := PageUrl(path, page, SizeText(asked));
    hide PageUrl, SetPage, HasNext, HasPrevious, Opens, Wrap, SizeText, Parse, Unbroken, IsPath, Header;
    PathIs(path);
    ParamsAreRead(path, page, asked);
    HeaderOfOffered(total, page, Size(asked), url);
    HeaderOpens(path, page, asked);
    OpensNoUrl(Header(Offered(total, page, Size(asked), url)), path);
    ParsesNothing(Header(Offered(total, page, Size(asked), url)));
  }

  lemma HeaderOpens(path: string, page: int, asked: Option<int>)
    requires IsPath(path) && 1 <= page <= MAX_INT64 && (asked.Some? ==> IsInt64(asked.value))
    ensures var prev := "<" + PageUrl(path, page - 1, SizeText(asked)) + ">; rel=\"prev\"";
      var next := "<" + PageUrl(path, Wrap(page + 1), SizeText(asked)) + ">; rel=\"next\"";
      Opens("", path) && Opens(prev, path) && Opens(next, path) && Opens(prev + ", " + next, path)
  {
    OpensNone(path);
    OpensLink(path, page - 1, asked, ">; rel=\"prev\"");
    OpensLink(path, Wrap(page + 1), asked, ">; rel=\"next\"");
    hide Opens, PageUrl, Wrap;
    var prev := "<" + PageUrl(path, page - 1, SizeText(asked)) + ">; rel=\"prev\"";
    var next := "<" + PageUrl(path, Wrap(page + 1), SizeText(asked)) + ">; rel=\"next\"";
    OpensTwice(prev, ", ", path);
    OpensTwice(prev + ", ", next, path);
  }

  lemma OpensNone(path: string)
    ensures Opens("", path) && Opens(", ", path)
  {
  }

  /** The pages of a list: which lead on, and what follows a last page that wrongly does. */
  lemma NextInPages(total: nat, page: nat, size: int)
    requires 1 <= size <= MAX_PAGE_SIZE && total <= MAX_INT64 && 1 <= page <= LastPage(total, size)
    ensures page < MAX_INT64 || (page == MAX_INT64 && !HasNext(total, page, size))
    ensures HasNext(total, page, size) ==> Wrap(page + 1) == page + 1
    ensures HasNext(total, page, size) <==> page < LastPage(total, size) || !InRange(total, size)
    ensures page == LastPage(total, size) && !InRange(total, size) ==> Wrap(Start(page + 1, size)) < 0
  {
    var last := LastPage(total, size);
    LastPageBounds(total, size);
    NextIsOfferedUntilTheLast(total, page, size);
    Widens(last - 1, size);
    assert Start(last + 1, size) == last * size == (last - 1) * size + size;
    if size == 1 {
      assert last * size == last;
    } else {
      assert 2 * (last - 1) <= (last - 1) * size by {
        Monotone2(last - 1, size);
      }
    }
  }

  lemma Monotone2(a: nat, size: int)
    requires size >= 2
    ensures 2 * a <= a * size
  {
  }

  /** The links of a page are plain and hold no separator. */
  lemma OfferedIsClean(path: string, total: nat, page: int, asked: Option<int>)
    requires Lacks(path, '?') && Unbroken(path) && (asked.Some? ==> IsInt64(asked.value) && asked.value >= 1)
    requires 1 <= page <= MAX_INT64
    ensures var links := Offered(total, page, Size(asked), PageUrl(path, page, SizeText(asked)));
      forall i :: 0 <= i < |links| ==>
        links[i].attrs == map[] && links[i].url != "" && GoodValue(links[i].rel) && Unbroken(links[i].url)
  {
    hide PageUrl, SetPage, HasPrevious, HasNext, Unbroken, SizeText, GoodValue;
    ParamsAreRead(path, page, asked);
    PageUrlIsClean(path, page - 1, asked);
    PageUrlIsClean(path, Wrap(page + 1), asked);
    RelsAreGood();
  }

  lemma RelsAreGood()
    ensures GoodValue("prev") && GoodValue("next")
  {
  }

  lemma Widens(page: nat, size: int)
    requires size >= 1
    ensures page <= page * size
  {
  }

  lemma NextOfOffered(total: int, page: int, size: int, url: string)
    ensures NextUrl(Offered(total, page, size, url)) == if HasNext(total, page, size) then SetPage(url, Wrap(page + 1)) else ""
  {
    hide SetPage, HasNext, HasPrevious;
    var next := [Link(SetPage(url, Wrap(page + 1)), "next", map[])];
    var links := Offered(total, page, size, url);
    assert HasPrevious(total, page, size) ==> links[1..] == if HasNext(total, page, size) then next else [];
  }

  function Min(a: int, b: int): int { if a < b then a else b }

  /** How many items come before a page. */
  ghost function Start(page: int, size: int): int {
    size * (page - 1)
  }

  lemma RowsOfPage<T>(items: seq<T>, page: nat, size: int, start: nat)
    requires size >= 1 && page >= 1 && start == Start(page, size) <= MAX_INT64
    ensures Rows(items, page, size) == Some(items[Min(start, |items|)..Min(start + size, |items|)])
  {
    assert IsInt64(start) && Wrap(start) == start;
    var first, end := Min(start, |items|), Min(start + size, |items|);
    assert start >= |items| ==> items[first..end] == [];
    assert Rows(items, page, size).value == items[first..end];
  }

  lemma NextStart(page: nat, size: int)
    ensures Start(page + 1, size) == Start(page, size) + size && Start(1, size) == 0
  {
  }

  lemma PageStart(total: nat, page: nat, size: int, start: int)
    requires size >= 1 && 1 <= page <= LastPage(total, size) && start == Start(page, size)
    ensures 0 <= start <= total
    ensures page < LastPage(total, size) ==> start + size <= total
    ensures page == LastPage(total, size) ==> total <= start + size
  {
    LastPageBounds(total, size);
    NextStart(page, size);
    Monotone(page - 1, LastPage(total, size) - 1, size);
    if page < LastPage(total, size) {
      Monotone(page, LastPage(total, size) - 1, size);
    }
  }

  /** One page: its rows, and the URL of the next one if there is one to follow. */
  method Fetch<T>(items: seq<T>, path: string, asked: Option<int>, endpoint: string, ghost page: nat)
    returns (rows: Option<seq<T>>, next: string)
    requires IsPath(path) && (asked.Some? ==> IsInt64(asked.value) && asked.value >= 1)
    requires 1 <= page <= MAX_INT64 && endpoint == PageUrl(path, page, SizeText(asked))
    ensures rows == Rows(items, page, Size(asked))
    ensures next == if Unbroken(path) && HasNext(|items|, page, Size(asked)) then PageUrl(path, Wrap(page + 1), SizeText(asked)) else ""
  {
    hide PageUrl, Parse, Header, Offered, NextUrl, SizeText, Rows, GetPaginationParams, HasNext, Unbroken;
    PathIs(path);
    ParamsAreRead(path, page, asked);
    OfferedIsRead(path, |items|, page, asked);
    var link;
    rows, link := Serve(items, endpoint);
    var links := ParseLinks(link);
    next := FirstNext(links);
  }

  /** What following the links from the first page gives: every item once and in order; only the
      first page when the path holds a comma or a semicolon; an error for an invalid size, or
      when the end of the last page exceeds 64 bits. */
  ghost function Fetched<T>(items: seq<T>, path: string, asked: Option<int>): Option<seq<T>> {
    if asked.Some? && asked.value <= 0 then None
    else if !Unbroken(path) then Some(items[..Min(Size(asked), |items|)])
    else if InRange(|items|, Size(asked)) then Some(items)
    else None
  }

  method GetAndIteratePagination<T>(items: seq<T>, path: string, asked: Option<int>) returns (all: Option<seq<T>>)
    requires IsPath(path) && |items| <= MAX_INT64 && (asked.Some? ==> IsInt64(asked.value))
    ensures all == Fetched(items, path, asked)
  {
    hide PageUrl, SizeText, GetPaginationParams, Rows, LastPage, InRange, Start, HasNext, Unbroken, Wrap;
    var endpoint := PageUrl(path, 1, SizeText(asked));
    PathIs(path);
    ParamsAreRead(path, 1, asked);
    if asked.Some? && asked.value <= 0 {
      var rows, _ := Serve(items, endpoint);
      return if rows.Some? then rows else None;
    }
    ghost var page, start, size, last := 1, 0, Size(asked), LastPage(|items|, Size(asked));
    LastPageBounds(|items|, size);
    NextStart(1, size);
    PageUrlIsNonEmpty(path, 1, asked);
    var resources: seq<T> := [];
    while |endpoint| > 0
      invariant 1 <= page <= last + 1 && start == Start(page, size) && page <= MAX_INT64
      invariant page > 1 ==> Unbroken(path)
      invariant page <= last ==> 0 <= start <= |items|
      invariant page == last + 1 ==> !InRange(|items|, size) && Wrap(start) < 0 && |endpoint| > 0
      invariant |endpoint| > 0 ==> endpoint == PageUrl(path, page, SizeText(asked)) && (page <= last ==> resources == items[..start])
      invariant |endpoint| == 0 ==> Some(resources) == Fetched(items, path, asked)
      decreases if |endpoint| == 0 then 0 else last - page + 2
    {
      var rows;
      rows, endpoint := Fetch(items, path, asked, endpoint, page);
      if page == last + 1 {
        RowsBeyond(items, page, size);
      } else {
        PageStart(|items|, page, size, start);
        RowsOfPage(items, page, size, start);
        NextInPages(|items|, page, size);
        PageUrlIsNonEmpty(path, Wrap(page + 1), asked);
      }
      if rows.None? {
        return None;
      }
      resources := resources + rows.value;
      if |endpoint| > 0 {
        NextStart(page, size);
        page, start := page + 1, start + size;
        if page <= last {
          PageStart(|items|, page, size, start);
        }
      } else if Unbroken(path) {
        assert page == last && resources == items;
      } else {
        assert start == 0 && resources == items[..Min(size, |items|)];
      }
    }
    all := Some(resources);
  }

  lemma RowsBeyond<T>(items: seq<T>, page: nat, size: int)
    requires size >= 1 && page >= 1 && Wrap(Start(page, size)) < 0
    ensures Rows(items, page, size).None?
  {
  }

  lemma PageUrlIsNonEmpty(path: string, page: int, asked: Option<int>)
    ensures PageUrl(path, page, SizeText(asked)) != ""
  {
  }

  method FirstNext(links: seq<Link>) returns (url: string)
    ensures url == NextUrl(links)
  {
    url := "";
    for n := 0 to |links|
      invariant NextUrl(links) == NextUrl(links[n..]) && url == ""
    {
      if links[n].rel == "next" {
        url := links[n].url;
        break;
      }
    }
  }

  // The iterators that ask for chunk after chunk

  /** `fails` tells which query fails, `until` how many items are taken before the context is
      done; `page` is the last page asked for. */
  method Iterator<T>(items: seq<T>, chunk: int, fails: int -> bool, until: nat) returns (sent: seq<T>, page: int)
    requires chunk >= 1 && |items| <= MAX_INT64
    ensures page >= 1 && forall p :: 1 <= p < page ==> !fails(p)
    ensures if !fails(page) then sent == items[..Min(until, |items|)]
            else 0 <= Start(page, chunk) <= |items| && Start(page, chunk) <= until && sent == items[..Start(page, chunk)]
  {
    hide Rows, Start;
    sent := [];
    page := 1;
    ghost var start := 0;
    NextStart(1, chunk);
    while true
      invariant forall p :: 1 <= p < page ==> !fails(p)
      invariant page >= 1 && start == Start(page, chunk) && |sent| == start <= |items| && start <= until
      invariant sent == items[..start]
      decreases |items| - start
    {
      RowsOfPage(items, page, chunk, start);
      var rows := Rows(items, page, chunk).value;
      if fails(page) { return; }
      for n := 0 to |rows|
        invariant |sent| == start + n <= until && sent == items[..start + n]
      {
        if |sent| == until { return; }
        sent := sent + [rows[n]];
      }
      if |rows| < chunk { break; }
      NextStart(page, chunk);
      page, start := page + 1, start + chunk;
    }
  }

  datatype Result<T> = Data(value: T) | Failed(page: int)

  function AllData<T>(items: seq<T>): seq<Result<T>> {
    seq(|items|, i requires 0 <= i < |items| => Data(items[i]))
  }

  /** The pages before the first failing query, then its error; everything if none fails. */
  method ListAll<T>(items: seq<T>, chunk: int, fails: int -> bool) returns (sent: seq<Result<T>>, page: int)
    requires chunk >= 1 && |items| <= MAX_INT64
    ensures page >= 1 && forall p :: 1 <= p < page ==> !fails(p)
    ensures if !fails(page) then sent == AllData(items)
            else 0 <= Start(page, chunk) <= |items| && sent == AllData(items[..Start(page, chunk)]) + [Failed(page)]
  {
    hide Rows, Start;
    sent := [];
    page := 1;
    ghost var start := 0;
    NextStart(1, chunk);
    while true
      invariant page >= 1 && (forall p :: 1 <= p < page ==> !fails(p))
      invariant start == Start(page, chunk) && 0 <= start <= |items| && sent == AllData(items[..start])
      decreases |items| - start
    {
      RowsOfPage(items, page, chunk, start);
      var rows := Rows(items, page, chunk).value;
      if fails(page) {
        sent := sent + [Failed(page)];
        return;
      }
      for n := 0 to |rows|
        invariant sent == AllData(items[..start + n])
      {
        assert items[..start + n + 1] == items[..start + n] + [rows[n]];
        sent := sent + [Data(rows[n])];
      }
      if |rows| < chunk {
        assert items[..start + |rows|] == items;
        break;
      }
      NextStart(page, chunk);
      page, start := page + 1, start + chunk;
    }
  }
}
