/** Decimal numbers and query strings. */
module Query {
  import opened Int64
  import opened Text
  import opened Wrappers

  function Digits(n: nat): string {
    (if n < 10 then "" else Digits(n / 10)) + ["0123456789"[n % 10]]
  }

  function DigitValue(c: char): Option<nat> {
    if '0' <= c <= '9' then Some(c as int - '0' as int) else None
  }

  function ParseDigits(s: string): Option<nat> {
    if s == "" then Some(0)
    else match (ParseDigits(s[..|s| - 1]), DigitValue(s[|s| - 1]))
         case (Some(high), Some(low)) => Some(10 * high + low)
         case _ => None
  }

  function Format(x: int): string {
    if x < 0 then "-" + Digits(-x) else Digits(x)
  }

  function ParseInt64(s: string): Option<int> {
    var signed := s != "" && (s[0] == '-' || s[0] == '+');
    var digits := if signed then s[1..] else s;
    if digits == "" then None
    else match ParseDigits(digits)
         case None => None
         case Some(n) =>
           var x := if signed && s[0] == '-' then 0 - n as int else n as int;
           if IsInt64(x) then Some(x) else None
  }

  predicate IsDigit(c: char) { '0' <= c <= '9' }

  lemma DigitIsRead(high: string, h: nat, d: nat)
    requires ParseDigits(high) == Some(h) && All(high, IsDigit) && d < 10
    ensures var s := high + ["0123456789"[d]];
      ParseDigits(s) == Some(10 * h + d) && All(s, IsDigit)
  {
    var s := high + ["0123456789"[d]];
    assert s[..|s| - 1] == high;
  }

  lemma {:induction false} DigitsRoundTrip(n: nat)
    ensures Digits(n) != "" && ParseDigits(Digits(n)) == Some(n)
    ensures All(Digits(n), IsDigit)
  {
    hide ParseDigits, IsDigit;
    if n < 10 {
      NoDigits();
      DigitIsRead("", 0, n);
    } else {
      DigitsRoundTrip(n / 10);
      DigitIsRead(Digits(n / 10), n / 10, n % 10);
    }
  }

  lemma NoDigits()
    ensures ParseDigits("") == Some(0)
  {
  }

  lemma FormatRoundTrip(x: int)
    requires IsInt64(x)
    ensures ParseInt64(Format(x)) == Some(x)
    ensures forall i :: 0 <= i < |Format(x)| ==> IsDigit(Format(x)[i]) || Format(x)[i] == '-'
  {
    hide Digits, ParseDigits;
    var digits := Digits(if x < 0 then -x else x);
    DigitsRoundTrip(if x < 0 then -x else x);
    if x < 0 {
      assert Format(x)[1..] == digits;
    } else {
      assert IsDigit(Format(x)[0]);
    }
  }

  /** What the parser accepts: an optional sign and digits, within 64 bits. */
  lemma ParseRefuses(s: string)
    ensures ParseInt64(s).Some? ==> s != "" && IsDigit(s[|s| - 1])
    ensures forall i :: 0 < i < |s| && !IsDigit(s[i]) ==> ParseInt64(s).None?
    ensures s != "" && !IsDigit(s[0]) && s[0] != '-' && s[0] != '+' ==> ParseInt64(s).None?
  {
    if s != "" {
      OnlyDigits(s);
      OnlyDigits(s[1..]);
      forall i | 0 < i < |s| && !IsDigit(s[i]) ensures ParseDigits(s).None? && ParseDigits(s[1..]).None? {
        assert s[1..][i - 1] == s[i];
      }
    }
  }

  lemma {:induction false} OnlyDigits(s: string)
    ensures ParseDigits(s).Some? ==> All(s, IsDigit)
  {
    if s != "" {
      OnlyDigits(s[..|s| - 1]);
      assert s == s[..|s| - 1] + [s[|s| - 1]];
    }
  }

  /** A number beyond 64 bits is refused, and a plus sign makes no difference. */
  lemma OverflowIsRefused(x: int)
    ensures !IsInt64(x) ==> ParseInt64(Format(x)).None?
    ensures x >= 0 ==> ParseInt64("+" + Format(x)) == ParseInt64(Format(x))
  {
    hide Digits, ParseDigits;
    var digits := Digits(if x < 0 then -x else x);
    DigitsRoundTrip(if x < 0 then -x else x);
    assert ("-" + digits)[1..] == digits && ("+" + digits)[1..] == digits;
    assert IsDigit(digits[0]);
  }

  /** The value of the first parameter with the key, empty if there is none. */
  function Lookup(params: seq<string>, key: string): string {
    if params == [] then ""
    else
      var n := Index(params[0], '=');
      if params[0][..n] == key then if n < |params[0]| then params[0][n + 1..] else ""
      else Lookup(params[1..], key)
  }

  function GetParam(url: string, key: string): string {
    var n := Index(url, '?');
    if n < |url| then Lookup(Split(url[n + 1..], '&'), key) else ""
  }

  function Path(url: string): string {
    url[..Index(url, '?')]
  }

  /** The URL of a page; a page size that was not asked for is empty. */
  function PageUrl(path: string, page: int, size: string): string {
    path + "?" + PageQuery(Format(page), size)
  }

  function PageQuery(page: string, size: string): string {
    "page=" + page + if size == "" then "" else "&page_size=" + size
  }

  /** A parameter with the key: the key alone, or followed by an equals sign and the value. */
  ghost predicate HasKey(param: string, key: string) {
    param == key || key + "=" <= param
  }

  /** The first parameter with the key decides. */
  lemma {:induction false} LookupIsFirst(params: seq<string>, key: string, i: nat)
    requires i < |params| && Lacks(key, '=') && HasKey(params[i], key) && forall j :: 0 <= j < i ==> !HasKey(params[j], key)
    ensures Lookup(params, key) == if params[i] == key then "" else params[i][|key| + 1..]
  {
    KeyIsBefore(params[0], key);
    if i > 0 {
      LookupIsFirst(params[1..], key, i - 1);
    }
  }

  lemma KeyIsBefore(param: string, key: string)
    requires Lacks(key, '=')
    ensures HasKey(param, key) <==> param[..Index(param, '=')] == key
    ensures HasKey(param, key) ==> Index(param, '=') == |key|
  {
    var n := Index(param, '=');
    if key + "=" <= param {
      var rest := param[|key| + 1..];
      assert param == key + ['='] + rest;
      IndexAfter(key, '=', rest);
    }
    if param[..n] == key && n < |param| {
      assert param[..n + 1] == key + "=";
    }
  }

  lemma LookupFirst(params: seq<string>, key: string, value: string)
    requires params != [] && params[0] == key + "=" + value && Lacks(key, '=')
    ensures Lookup(params, key) == value
    ensures forall other :: other != key ==> Lookup(params, other) == Lookup(params[1..], other)
  {
    IndexAfter(key, '=', value);
    assert params[0] == key + ['='] + value;
    assert params[0][..|key|] == key;
    assert params[0][|key| + 1..] == value;
  }

  /** A server reads from the URL of a page what was written into it. */
  lemma PageUrlIsRead(path: string, page: int, size: string)
    requires Lacks(path, '?') && IsInt64(page) && Lacks(size, '&')
    ensures var url := PageUrl(path, page, size);
      && Path(url) == path && ParseInt64(GetParam(url, "page")) == Some(page) && GetParam(url, "page") != ""
      && GetParam(url, "page_size") == size
  {
    hide Split, Lookup, Format;
    var url := PageUrl(path, page, size);
    FormatRoundTrip(page);
    var query := PageQuery(Format(page), size);
    assert url == path + ['?'] + query;
    IndexAfter(path, '?', query);
    assert url[|path| + 1..] == query;
    QueryIsRead(Format(page), size);
  }

  lemma QueryIsRead(page: string, size: string)
    requires Lacks(page, '&') && Lacks(size, '&')
    ensures var params := Split(PageQuery(page, size), '&');
      Lookup(params, "page") == page && Lookup(params, "page_size") == size
  {
    hide Split, Lookup;
    var first := "page=" + page;
    if size == "" {
      SplitWhole(first, '&');
      assert PageQuery(page, size) == first;
      var params := [first];
      LookupFirst(params, "page", page);
      LookupNone("page_size");
      assert params[1..] == [];
    } else {
      var second := "page_size=" + size;
      assert PageQuery(page, size) == first + ['&'] + second;
      SplitFirst(first, '&', second);
      SplitWhole(second, '&');
      var params := [first, second];
      assert [first] + [second] == params && params[1..] == [second];
      LookupFirst([second], "page_size", size);
      LookupFirst(params, "page", page);
    }
  }

  lemma LookupNone(key: string)
    ensures Lookup([], key) == ""
  {
  }
}
