/** The Link header of RFC 8288 section 3: printing and parsing. */
module Links {
  import opened Text

  datatype Link = Link(url: string, rel: string, attrs: map<string, string>)

  // Printing

  function Param(key: string, value: string): string {
    key + "=\"" + value + "\""
  }

  function Head(l: Link): seq<string> {
    ["<" + l.url + ">"] + if l.rel == "" then [] else [Param("rel", l.rel)]
  }

  /** The attributes in the given order. */
  function Params(attrs: map<string, string>, order: seq<string>): seq<string>
    requires forall i :: 0 <= i < |order| ==> order[i] in attrs
  {
    seq(|order|, i requires 0 <= i < |order| => Param(order[i], attrs[order[i]]))
  }

  function Parts(l: Link, order: seq<string>): seq<string>
    requires forall i :: 0 <= i < |order| ==> order[i] in l.attrs
  {
    Head(l) + Params(l.attrs, order)
  }

  function Print(l: Link, order: seq<string>): string
    requires forall i :: 0 <= i < |order| ==> order[i] in l.attrs
  {
    Join(Parts(l, order), "; ")
  }

  /** An iteration order of a map: every key once. */
  ghost predicate Enumerates(order: seq<string>, attrs: map<string, string>) {
    && (forall i :: 0 <= i < |order| ==> order[i] in attrs)
    && (forall i, j :: 0 <= i < j < |order| ==> order[i] != order[j])
    && (forall k :: k in attrs ==> exists i :: 0 <= i < |order| && order[i] == k)
  }

  ghost predicate Orders(orders: seq<seq<string>>, links: seq<Link>) {
    |orders| == |links| && forall i :: 0 <= i < |links| ==> Enumerates(orders[i], links[i].attrs)
  }

  ghost function PrintAll(links: seq<Link>, orders: seq<seq<string>>): string
    requires Orders(orders, links)
  {
    Join(seq(|links|, i requires 0 <= i < |links| => Print(links[i], orders[i])), " , ")
  }

  method LinkToString(l: Link, order: seq<string>) returns (s: string)
    requires Enumerates(order, l.attrs)
    ensures s == Print(l, order)
  {
    s := "<" + l.url + ">";
    if |l.rel| > 0 {
      JoinAppend([s], Param("rel", l.rel), "; ");
      s := s + "; rel=\"" + l.rel + "\"";
    }
    hide Join;
    ghost var head, params := Head(l), Params(l.attrs, order);
    assert head + params[..0] == head;
    for n := 0 to |order|
      invariant s == Join(head + params[..n], "; ")
    {
      var value := l.attrs[order[n]];
      assert head + params[..n + 1] == head + params[..n] + [params[n]];
      JoinAppend(head + params[..n], params[n], "; ");
      s := s + "; " + order[n] + "=\"" + value + "\"";
    }
    assert params[..|order|] == params;
  }

  method LinksToString(links: seq<Link>, orders: seq<seq<string>>) returns (s: string)
    requires Orders(orders, links)
    ensures s == PrintAll(links, orders)
  {
    var strs := [];
    for n := 0 to |links|
      invariant |strs| == n && forall i :: 0 <= i < n ==> strs[i] == Print(links[i], orders[i])
    {
      var str := LinkToString(links[n], orders[n]);
      strs := strs + [str];
    }
    assert strs == seq(|links|, i requires 0 <= i < |links| => Print(links[i], orders[i]));
    s := Join(strs, " , ");
  }

  // Parsing

  /** One attribute of a link, without white space around it. */
  function Take(l: Link, attr: string): Link {
    if attr == "" then l
    else if attr[0] == '<' && attr[|attr| - 1] == '>' then l.(url := attr[1..|attr| - 1])
    else
      var n := Index(attr, '=');
      var key := attr[..n];
      var value := if n < |attr| then Trim(attr[n + 1..], IsQuote) else "";
      if key == "rel" then l.(rel := value) else l.(attrs := l.attrs[key := value])
  }

  function TakeAll(l: Link, pieces: seq<string>): Link
    decreases |pieces|
  {
    if pieces == [] then l else TakeAll(Take(l, Trim(pieces[0], IsSpace)), pieces[1..])
  }

  function ParseLink(s: string): Link {
    TakeAll(Link("", "", map[]), Split(s, ';'))
  }

  function ParsePieces(pieces: seq<string>): seq<Link> {
    if pieces == [] then []
    else
      var l := ParseLink(pieces[0]);
      (if l.url == "" then [] else [l]) + ParsePieces(pieces[1..])
  }

  function Parse(s: string): seq<Link> {
    ParsePieces(Split(s, ','))
  }

  lemma {:induction false} ParsePiecesAppend(pieces: seq<string>, x: string)
    ensures ParsePieces(pieces + [x]) == ParsePieces(pieces) + (if ParseLink(x).url == "" then [] else [ParseLink(x)])
  {
    hide ParseLink;
    var all := pieces + [x];
    if pieces == [] {
      assert all[1..] == [];
    } else {
      assert all[1..] == pieces[1..] + [x];
      ParsePiecesAppend(pieces[1..], x);
    }
  }

  method ParseLinks(str: string) returns (links: seq<Link>)
    ensures links == Parse(str)
  {
    hide Take, Split, Trim;
    links := [];
    var pieces := Split(str, ',');
    for n := 0 to |pieces|
      invariant links == ParsePieces(pieces[..n])
    {
      assert pieces[..n + 1] == pieces[..n] + [pieces[n]];
      ParsePiecesAppend(pieces[..n], pieces[n]);
      var link := Link("", "", map[]);
      var attrs := Split(pieces[n], ';');
      for k := 0 to |attrs|
        invariant TakeAll(link, attrs[k..]) == ParseLink(pieces[n])
      {
        var attr := Trim(attrs[k], IsSpace);
        link := Take(link, attr);
      }
      if |link.url| > 0 {
        links := links + [link];
      }
    }
    assert pieces[..|pieces|] == pieces;
  }

  // What can be printed and parsed back

  predicate Unbroken(s: string) {
    Lacks(s, ',') && Lacks(s, ';')
  }

  predicate Unquoted(s: string) {
    s == "" || (s[0] != '"' && s[|s| - 1] != '"')
  }

  predicate GoodValue(v: string) {
    Unbroken(v) && Unquoted(v)
  }

  predicate GoodKey(k: string) {
    Unbroken(k) && Lacks(k, '=') && k != "rel" && (k == "" || !IsSpace(k[0]))
  }

  ghost predicate GoodLink(l: Link) {
    && Unbroken(l.url) && GoodValue(l.rel)
    && forall k :: k in l.attrs ==> GoodKey(k) && GoodValue(l.attrs[k])
  }

  ghost predicate AllGood(links: seq<Link>) {
    forall i :: 0 <= i < |links| ==> GoodLink(links[i]) && links[i].url != ""
  }

  lemma SliceUnbroken(s: string, i: nat, j: nat)
    requires Unbroken(s) && i <= j <= |s|
    ensures Unbroken(s[i..j])
  {
  }

  lemma TakeStaysGood(l: Link, attr: string)
    requires GoodLink(l) && Unbroken(attr) && (attr == "" || !IsSpace(attr[0]))
    ensures GoodLink(Take(l, attr))
  {
    if attr != "" {
      var n := Index(attr, '=');
      SliceUnbroken(attr, 0, n);
      if attr[0] == '<' && attr[|attr| - 1] == '>' {
        SliceUnbroken(attr, 1, |attr| - 1);
      } else if n < |attr| {
        var rest := attr[n + 1..];
        SliceUnbroken(attr, n + 1, |attr|);
        TrimClean(rest, IsQuote, ',');
        TrimClean(rest, IsQuote, ';');
        assert GoodValue(Trim(rest, IsQuote));
      }
    }
  }

  lemma {:induction false} TakeAllStaysGood(l: Link, pieces: seq<string>)
    requires GoodLink(l) && forall i :: 0 <= i < |pieces| ==> Unbroken(pieces[i])
    ensures GoodLink(TakeAll(l, pieces))
    decreases |pieces|
  {
    if pieces != [] {
      TrimClean(pieces[0], IsSpace, ',');
      TrimClean(pieces[0], IsSpace, ';');
      TakeStaysGood(l, Trim(pieces[0], IsSpace));
      TakeAllStaysGood(Take(l, Trim(pieces[0], IsSpace)), pieces[1..]);
    }
  }

  lemma {:induction false} ParsePiecesGood(pieces: seq<string>)
    requires forall i :: 0 <= i < |pieces| ==> Lacks(pieces[i], ',')
    ensures AllGood(ParsePieces(pieces))
  {
    if pieces != [] {
      SplitClean(pieces[0], ';');
      SplitLacks(pieces[0], ';', ',');
      TakeAllStaysGood(Link("", "", map[]), Split(pieces[0], ';'));
      ParsePiecesGood(pieces[1..]);
    }
  }

  /** Whatever the header, the links parsed from it are good ones. */
  lemma ParseYieldsGoodLinks(s: string)
    ensures AllGood(Parse(s))
  {
    SplitClean(s, ',');
    ParsePiecesGood(Split(s, ','));
  }

  // The round trip

  lemma TakeParam(l: Link, key: string, value: string)
    requires Lacks(key, '=') && Unquoted(value)
    ensures Take(l, Param(key, value)) == if key == "rel" then l.(rel := value) else l.(attrs := l.attrs[key := value])
  {
    var attr := Param(key, value);
    var quoted := "\"" + value + "\"";
    assert attr == key + ['='] + quoted;
    IndexAfter(key, '=', quoted);
    assert attr[..|key|] == key && attr[|key| + 1..] == quoted;
    TrimPadding("\"", value, "\"", IsQuote);
  }

  ghost function Set(l: Link, key: string, value: string): Link {
    if key == "rel" then l.(rel := value) else l.(attrs := l.attrs[key := value])
  }

  /** Quotes around a value make no difference. */
  lemma TakeToken(l: Link, key: string, value: string)
    requires Lacks(key, '=') && Unquoted(value) && (key == "" || key[0] != '<')
    ensures Take(l, key + "=" + value) == Take(l, Param(key, value)) == Set(l, key, value)
  {
    TakeParam(l, key, value);
    var attr := key + "=" + value;
    assert attr == key + ['='] + value;
    IndexAfter(key, '=', value);
    assert attr[..|key|] == key && attr[|key| + 1..] == value;
    assert "" + value + "" == value;
    TrimPadding("", value, "", IsQuote);
  }

  /** A key without a value gets the empty one. */
  lemma TakeKey(l: Link, key: string)
    requires Lacks(key, '=') && key != "" && key[0] != '<'
    ensures Take(l, key) == Take(l, Param(key, "")) == Set(l, key, "")
  {
    TakeParam(l, key, "");
    IndexOfNone(key, '=');
    assert key[..|key|] == key;
  }

  /** Of two attributes with the same key the later one counts. */
  lemma LastValueCounts(l: Link, key: string, first: string, second: string)
    requires Lacks(key, '=') && Unquoted(first) && Unquoted(second)
    ensures Take(Take(l, Param(key, first)), Param(key, second)) == Take(l, Param(key, second))
  {
    hide Take, Param;
    TakeParam(l, key, first);
    TakeParam(l, key, second);
    TakeParam(Take(l, Param(key, first)), key, second);
    assert l.attrs[key := first][key := second] == l.attrs[key := second];
  }

  lemma TakeUrl(l: Link, url: string)
    ensures Take(l, "<" + url + ">") == l.(url := url)
  {
    var attr := "<" + url + ">";
    assert attr[1..|attr| - 1] == url;
  }

  lemma {:induction false} IndexOfNone(s: string, c: char)
    requires Lacks(s, c)
    ensures Index(s, c) == |s|
  {
    if s != "" {
      IndexOfNone(s[1..], c);
    }
  }

  ghost function Fold(l: Link, parts: seq<string>): Link
    decreases |parts|
  {
    if parts == [] then l else Fold(Take(l, parts[0]), parts[1..])
  }

  lemma {:induction false} FoldAppend(l: Link, parts: seq<string>, x: string)
    ensures Fold(l, parts + [x]) == Take(Fold(l, parts), x)
    decreases |parts|
  {
    var all := parts + [x];
    if parts == [] {
      assert all[1..] == [];
    } else {
      assert all[1..] == parts[1..] + [x];
      FoldAppend(Take(l, parts[0]), parts[1..], x);
    }
  }

  predicate Solid(s: string) {
    s != "" && !IsSpace(s[0]) && !IsSpace(s[|s| - 1])
  }

  lemma TrimPadded(piece: string, x: string)
    requires Padded(piece, x) && Solid(x)
    ensures Trim(piece, IsSpace) == x
  {
    var a, b :| All(a, IsSpace) && All(b, IsSpace) && piece == a + x + b;
    TrimPadding(a, x, b, IsSpace);
  }

  lemma {:induction false} TakePadded(l: Link, pieces: seq<string>, parts: seq<string>)
    requires |pieces| == |parts|
    requires forall i :: 0 <= i < |parts| ==> Solid(parts[i]) && Padded(pieces[i], parts[i])
    ensures TakeAll(l, pieces) == Fold(l, parts)
    decreases |pieces|
  {
    hide Padded, Solid, Take;
    if pieces != [] {
      TrimPadded(pieces[0], parts[0]);
      TakePadded(Take(l, parts[0]), pieces[1..], parts[1..]);
    }
  }

  /** The part of a map on the first keys of an order. */
  ghost function Upto(attrs: map<string, string>, order: seq<string>, n: nat): map<string, string>
    requires n <= |order|
  {
    map k | k in attrs && k in order[..n] :: attrs[k]
  }

  lemma FoldHead(l: Link)
    requires GoodLink(l)
    ensures Fold(Link("", "", map[]), Head(l)) == Link(l.url, l.rel, map[])
  {
    var none := Link("", "", map[]);
    var url := "<" + l.url + ">";
    assert url[1..|url| - 1] == l.url;
    assert Take(none, url) == Link(l.url, "", map[]);
    FoldAppend(none, [], url);
    assert [] + [url] == [url];
    if l.rel != "" {
      FoldAppend(none, [url], Param("rel", l.rel));
      TakeParam(Link(l.url, "", map[]), "rel", l.rel);
    }
  }

  lemma {:induction false} FoldParts(l: Link, order: seq<string>, n: nat)
    requires GoodLink(l) && Enumerates(order, l.attrs) && n <= |order|
    ensures Fold(Link("", "", map[]), Head(l) + Params(l.attrs, order)[..n]) == Link(l.url, l.rel, Upto(l.attrs, order, n))
  {
    hide Take, Head, Param;
    var none := Link("", "", map[]);
    var head, params := Head(l), Params(l.attrs, order);
    if n == 0 {
      assert Upto(l.attrs, order, 0) == map[];
      assert head + params[..0] == head;
      FoldHead(l);
    } else {
      FoldParts(l, order, n - 1);
      var key := order[n - 1];
      var x := Param(key, l.attrs[key]);
      var before := head + params[..n - 1];
      assert head + params[..n] == before + [x];
      FoldAppend(none, before, x);
      TakeParam(Fold(none, before), key, l.attrs[key]);
      assert order[..n] == order[..n - 1] + [key];
      assert Upto(l.attrs, order, n) == Upto(l.attrs, order, n - 1)[key := l.attrs[key]];
    }
  }

  lemma UptoAll(attrs: map<string, string>, order: seq<string>)
    requires Enumerates(order, attrs)
    ensures Upto(attrs, order, |order|) == attrs
  {
    assert order[..|order|] == order;
    forall k | k in attrs ensures k in order {
    }
  }

  lemma PartsAreSolid(l: Link, order: seq<string>)
    requires GoodLink(l) && Enumerates(order, l.attrs)
    ensures Parts(l, order) != []
    ensures forall i :: 0 <= i < |Parts(l, order)| ==> Solid(Parts(l, order)[i]) && Unbroken(Parts(l, order)[i])
  {
    hide Param, Solid, Unbroken, GoodKey, GoodValue;
    UrlIsSolid(l.url);
    ParamIsSolid("rel", l.rel);
    var params := Params(l.attrs, order);
    forall i | 0 <= i < |params| ensures Solid(params[i]) && Unbroken(params[i]) {
      ParamIsSolid(order[i], l.attrs[order[i]]);
    }
  }

  lemma UrlIsSolid(url: string)
    requires Unbroken(url)
    ensures Solid("<" + url + ">") && Unbroken("<" + url + ">")
  {
  }

  lemma ParamIsSolid(k: string, v: string)
    requires GoodValue(v) && (GoodKey(k) || k == "rel")
    ensures Solid(Param(k, v)) && Unbroken(Param(k, v))
  {
  }

  lemma ParamsAll(attrs: map<string, string>, order: seq<string>)
    requires Enumerates(order, attrs)
    ensures Params(attrs, order)[..|order|] == Params(attrs, order)
  {
  }

  lemma SplitPadded(piece: string, parts: seq<string>)
    requires parts != [] && Padded(piece, Join(parts, "; "))
    requires forall i :: 0 <= i < |parts| ==> Lacks(parts[i], ';')
    ensures |Split(piece, ';')| == |parts| && forall i :: 0 <= i < |parts| ==> Padded(Split(piece, ';')[i], parts[i])
  {
    var a, b :| All(a, IsSpace) && All(b, IsSpace) && piece == a + Join(parts, "; ") + b;
    assert "" + [';'] + " " == "; ";
    SplitJoin(parts, a, b, "", ';', " ");
  }

  lemma ParsePrinted(piece: string, l: Link, order: seq<string>)
    requires GoodLink(l) && Enumerates(order, l.attrs) && Padded(piece, Print(l, order))
    ensures ParseLink(piece) == l
  {
    hide Take, TakeAll, Head, Params, Split, Padded;
    var parts := Parts(l, order);
    PartsAreSolid(l, order);
    SplitPadded(piece, parts);
    TakePadded(Link("", "", map[]), Split(piece, ';'), parts);
    FoldParts(l, order, |order|);
    ParamsAll(l.attrs, order);
    UptoAll(l.attrs, order);
  }

  lemma PrintLacksComma(l: Link, order: seq<string>)
    requires GoodLink(l) && Enumerates(order, l.attrs)
    ensures Lacks(Print(l, order), ',')
  {
    PartsAreSolid(l, order);
    JoinLacks(Parts(l, order), "; ", ',');
  }

  lemma {:induction false} ParsePrintedPieces(pieces: seq<string>, links: seq<Link>, orders: seq<seq<string>>)
    requires Orders(orders, links) && AllGood(links) && |pieces| == |links|
    requires forall i :: 0 <= i < |links| ==> Padded(pieces[i], Print(links[i], orders[i]))
    ensures ParsePieces(pieces) == links
  {
    hide Padded, GoodLink, ParseLink, Print;
    if pieces != [] {
      ParsePrinted(pieces[0], links[0], orders[0]);
      ParsePrintedPieces(pieces[1..], links[1..], orders[1..]);
    }
  }

  lemma ParseUndoesPrint(links: seq<Link>, orders: seq<seq<string>>)
    requires Orders(orders, links) && AllGood(links)
    ensures Parse(PrintAll(links, orders)) == links
  {
    if links == [] {
      assert ParseLink("").url == "";
      assert Split("", ',') == [""];
    } else {
      hide Padded, ParsePieces, Split, GoodLink;
      var strs := seq(|links|, i requires 0 <= i < |links| => Print(links[i], orders[i]));
      forall i | 0 <= i < |strs| ensures Lacks(strs[i], ',') {
        PrintLacksComma(links[i], orders[i]);
      }
      assert " " + [','] + " " == " , ";
      assert "" + Join(strs, " , ") + "" == PrintAll(links, orders);
      SplitJoin(strs, "", "", " ", ',', " ");
      ParsePrintedPieces(Split(PrintAll(links, orders), ','), links, orders);
    }
  }

  /** Parsing undoes printing, in whatever order the attributes came, exactly for good links. */
  lemma RoundTrip(links: seq<Link>, orders: seq<seq<string>>)
    requires Orders(orders, links)
    ensures Parse(PrintAll(links, orders)) == links <==> AllGood(links)
  {
    ParseYieldsGoodLinks(PrintAll(links, orders));
    if AllGood(links) {
      ParseUndoesPrint(links, orders);
    }
  }

  /** Printing what was parsed from any header and parsing again changes nothing. */
  lemma ParseIsStable(s: string, orders: seq<seq<string>>)
    requires Orders(orders, Parse(s))
    ensures Parse(PrintAll(Parse(s), orders)) == Parse(s)
  {
    ParseYieldsGoodLinks(s);
    ParseUndoesPrint(Parse(s), orders);
  }

  // URLs that hold a separator

  /** Between an opening and a later closing bracket there is always a separator. */
  predicate NoUrl(s: string) {
    forall i, j :: 0 <= i < j < |s| && s[i] == '<' && s[j] == '>' ==> exists k :: i < k < j && (s[k] == ',' || s[k] == ';')
  }

  lemma NoUrlSlice(s: string, a: nat, b: nat)
    requires NoUrl(s) && a <= b <= |s|
    ensures NoUrl(s[a..b])
  {
    var t := s[a..b];
    forall i, j | 0 <= i < j < |t| && t[i] == '<' && t[j] == '>' 
      ensures exists k :: i < k < j && (t[k] == ',' || t[k] == ';')
    {
      assert s[a + i] == '<' && s[a + j] == '>';
      var k :| a + i < k < a + j && (s[k] == ',' || s[k] == ';');
      assert t[k - a] == s[k];
    }
  }

  lemma {:induction false} SplitStartsWithPrefix(s: string, c: char)
    ensures Split(s, c)[0] <= s
  {
    if s != "" {
      SplitStartsWithPrefix(s[1..], c);
    }
  }

  lemma {:induction false} SplitNoUrl(s: string, c: char)
    requires NoUrl(s)
    ensures forall i :: 0 <= i < |Split(s, c)| ==> NoUrl(Split(s, c)[i])
  {
    hide NoUrl;
    NoUrlSlice(s, 0, 0);
    assert s[0..0] == "";
    if s != "" {
      NoUrlSlice(s, 1, |s|);
      assert s[1..|s|] == s[1..];
      SplitNoUrl(s[1..], c);
      SplitStartsWithPrefix(s, c);
      NoUrlSlice(s, 0, |Split(s, c)[0]|);
      assert s[0..|Split(s, c)[0]|] == Split(s, c)[0];
    }
  }

  lemma {:induction false} TrimLeftNoUrl(s: string, p: char -> bool)
    requires NoUrl(s)
    ensures NoUrl(TrimLeft(s, p))
  {
    if s != "" && p(s[0]) {
      NoUrlSlice(s, 1, |s|);
      assert s[1..|s|] == s[1..];
      TrimLeftNoUrl(s[1..], p);
    }
  }

  lemma TrimNoUrl(s: string, p: char -> bool)
    requires NoUrl(s)
    ensures NoUrl(Trim(s, p))
  {
    hide NoUrl;
    TrimLeftNoUrl(s, p);
    var t := TrimLeft(s, p);
    NoUrlSlice(t, 0, |Trim(s, p)|);
    assert t[0..|Trim(s, p)|] == Trim(s, p);
  }

  lemma TakesNoUrl(l: Link, attr: string)
    requires NoUrl(attr) && Unbroken(attr)
    ensures Take(l, attr).url == l.url
  {
    if attr != "" && attr[0] == '<' && attr[|attr| - 1] == '>' {
      var k :| 0 < k < |attr| - 1 && (attr[k] == ',' || attr[k] == ';');
      assert false;
    }
  }

  lemma {:induction false} TakesNoUrls(l: Link, pieces: seq<string>)
    requires forall i :: 0 <= i < |pieces| ==> NoUrl(pieces[i]) && Unbroken(pieces[i])
    ensures TakeAll(l, pieces).url == l.url
    decreases |pieces|
  {
    hide NoUrl, Unbroken, Take;
    if pieces != [] {
      var attr := Trim(pieces[0], IsSpace);
      TrimNoUrl(pieces[0], IsSpace);
      TrimUnbroken(pieces[0]);
      TakesNoUrl(l, attr);
      TakesNoUrls(Take(l, attr), pieces[1..]);
    }
  }

  lemma TrimUnbroken(s: string)
    requires Unbroken(s)
    ensures Unbroken(Trim(s, IsSpace))
  {
    TrimClean(s, IsSpace, ',');
    TrimClean(s, IsSpace, ';');
  }

  lemma {:induction false} ParsesNoPieces(pieces: seq<string>)
    requires forall i :: 0 <= i < |pieces| ==> NoUrl(pieces[i]) && Lacks(pieces[i], ',')
    ensures ParsePieces(pieces) == []
  {
    hide NoUrl;
    if pieces != [] {
      SplitNoUrl(pieces[0], ';');
      SplitClean(pieces[0], ';');
      SplitLacks(pieces[0], ';', ',');
      TakesNoUrls(Link("", "", map[]), Split(pieces[0], ';'));
      ParsesNoPieces(pieces[1..]);
    }
  }

  /** A header in which every bracketed part holds a separator gives no link at all. */
  lemma ParsesNothing(s: string)
    requires NoUrl(s)
    ensures Parse(s) == []
  {
    hide NoUrl;
    SplitNoUrl(s, ',');
    SplitClean(s, ',');
    ParsesNoPieces(Split(s, ','));
  }

  /** Two parts with white space before each are taken one after the other. */
  lemma TwoParts(a: string, first: string, b: string, second: string)
    requires All(a, IsSpace) && All(b, IsSpace) && Solid(first) && Solid(second) && Unbroken(first) && Unbroken(second)
    ensures Lacks(a + first + ";" + b + second, ',')
    ensures ParseLink(a + first + ";" + b + second) == Take(Take(Link("", "", map[]), first), second)
  {
    var none := Link("", "", map[]);
    var s := a + first + ";" + b + second;
    SpaceLacks(a, ',');
    SpaceLacks(a, ';');
    SpaceLacks(b, ',');
    SpaceLacks(b, ';');
    assert s == (a + first) + [';'] + (b + second);
    SplitFirst(a + first, ';', b + second);
    SplitWhole(b + second, ';');
    PaddedBy(a, first, "");
    PaddedBy(b, second, "");
    assert a + first + "" == a + first && b + second + "" == b + second;
    hide Take, Split, Padded, Solid;
    TakePadded(none, [a + first, b + second], [first, second]);
    FoldAppend(none, [first], second);
    FoldAppend(none, [], first);
    assert [] + [first] == [first] && [first] + [second] == [first, second];
  }

  /** A link as other programs write it: the relation without quotes, with white space before the
      parts as they like. */
  lemma UnquotedIsRead(url: string, rel: string, a: string, b: string)
    requires url != "" && Unbroken(url) && Unbroken(rel) && Unquoted(rel) && (rel == "" || !IsSpace(rel[|rel| - 1]))
    requires All(a, IsSpace) && All(b, IsSpace)
    ensures Parse(a + ("<" + url + ">") + ";" + b + ("rel=" + rel)) == [Link(url, rel, map[])]
  {
    var first, second := "<" + url + ">", "rel=" + rel;
    var s := a + first + ";" + b + second;
    assert Solid(first) && Unbroken(first) && Solid(second) && Unbroken(second);
    TwoParts(a, first, b, second);
    RelIsTaken(url, rel);
    SplitWhole(s, ',');
    hide ParseLink, Take;
    assert [s][1..] == [] && ParsePieces([]) == [];
  }

  lemma RelIsTaken(url: string, rel: string)
    requires Unquoted(rel)
    ensures Take(Take(Link("", "", map[]), "<" + url + ">"), "rel=" + rel) == Link(url, rel, map[])
  {
    hide Take;
    TakeUrl(Link("", "", map[]), url);
    TakeToken(Link(url, "", map[]), "rel", rel);
    assert "rel" + "=" + rel == "rel=" + rel;
  }
}
