/** Strings as sequences of characters, with the library functions the link header needs. */
module Text {

  /** Unicode white space. */
  predicate IsSpace(c: char) {
    c in "\t\n\U{000B}\U{000C}\r \U{0085}\U{00A0}\U{1680}\U{2028}\U{2029}\U{202F}\U{205F}\U{3000}"
    || '\U{2000}' <= c <= '\U{200A}'
  }

  /** The ASCII white space and the spaces of other scripts, but no visible ASCII character. */
  lemma Spaces(c: char)
    ensures c in "\t\n\r " || '\U{2000}' <= c <= '\U{200A}' || c == '\U{00A0}' || c == '\U{3000}' ==> IsSpace(c)
    ensures '!' <= c <= '~' ==> !IsSpace(c)
  {
  }

  predicate IsQuote(c: char) { c == '"' }

  /** The character does not occur. */
  predicate Lacks(s: string, c: char) {
    forall i :: 0 <= i < |s| ==> s[i] != c
  }

  function Split(s: string, c: char): (r: seq<string>)
    ensures |r| >= 1
  {
    if s == "" then [""]
    else
      var rest := Split(s[1..], c);
      if s[0] == c then [""] + rest else [[s[0]] + rest[0]] + rest[1..]
  }

  function Join(strs: seq<string>, sep: string): string {
    if strs == [] then "" else if |strs| == 1 then strs[0] else strs[0] + sep + Join(strs[1..], sep)
  }

  function TrimLeft(s: string, p: char -> bool): (r: string)
    ensures r == "" || !p(r[0])
  {
    if s != "" && p(s[0]) then TrimLeft(s[1..], p) else s
  }

  function TrimRight(s: string, p: char -> bool): (r: string)
    ensures r <= s && (r == "" || !p(r[|r| - 1]))
  {
    if s != "" && p(s[|s| - 1]) then TrimRight(s[..|s| - 1], p) else s
  }

  function Trim(s: string, p: char -> bool): (r: string)
    ensures r == "" || (!p(r[0]) && !p(r[|r| - 1]))
  {
    TrimRight(TrimLeft(s, p), p)
  }

  /** The position of the first `c`, or the length. */
  function Index(s: string, c: char): (n: nat)
    ensures n <= |s| && Lacks(s[..n], c) && (n < |s| ==> s[n] == c)
  {
    if s == "" || s[0] == c then 0 else 1 + Index(s[1..], c)
  }

  // Laws

  lemma {:induction false} SplitClean(s: string, c: char)
    ensures forall i :: 0 <= i < |Split(s, c)| ==> Lacks(Split(s, c)[i], c)
  {
    if s != "" {
      SplitClean(s[1..], c);
    }
  }

  lemma {:induction false} SplitLacks(s: string, c: char, d: char)
    requires Lacks(s, d)
    ensures forall i :: 0 <= i < |Split(s, c)| ==> Lacks(Split(s, c)[i], d)
  {
    if s != "" {
      SplitLacks(s[1..], c, d);
    }
  }

  lemma {:induction false} SplitWhole(s: string, c: char)
    requires Lacks(s, c)
    ensures Split(s, c) == [s]
  {
    if s != "" {
      SplitWhole(s[1..], c);
      assert s == [s[0]] + s[1..];
    }
  }

  lemma {:induction false} SplitFirst(a: string, c: char, b: string)
    requires Lacks(a, c)
    ensures Split(a + [c] + b, c) == [a] + Split(b, c)
  {
    var s := a + [c] + b;
    if a == "" {
      assert s[1..] == b;
    } else {
      assert s[1..] == a[1..] + [c] + b;
      SplitFirst(a[1..], c, b);
      assert a == [a[0]] + a[1..] && s[0] == a[0];
    }
  }

  lemma {:induction false} TrimLeftClean(s: string, p: char -> bool, c: char)
    requires Lacks(s, c)
    ensures Lacks(TrimLeft(s, p), c)
  {
    if s != "" && p(s[0]) {
      TrimLeftClean(s[1..], p, c);
    }
  }

  lemma TrimClean(s: string, p: char -> bool, c: char)
    requires Lacks(s, c)
    ensures Lacks(Trim(s, p), c)
  {
    TrimLeftClean(s, p, c);
  }

  predicate All(s: string, p: char -> bool) {
    forall i :: 0 <= i < |s| ==> p(s[i])
  }

  /** Trimming takes away exactly the padding. */
  lemma TrimPadding(a: string, x: string, b: string, p: char -> bool)
    requires All(a, p) && All(b, p) && (x == "" || (!p(x[0]) && !p(x[|x| - 1])))
    ensures Trim(a + x + b, p) == x
  {
    TrimLeftPadding(a, x + b, p);
    assert a + x + b == a + (x + b);
    if x == "" {
      TrimLeftAll(b, p);
      assert x + b == b;
    } else {
      TrimRightPadding(x, b, p);
    }
  }

  lemma {:induction false} TrimLeftPadding(a: string, x: string, p: char -> bool)
    requires All(a, p)
    ensures TrimLeft(a + x, p) == TrimLeft(x, p)
  {
    if a == "" {
      assert a + x == x;
    } else {
      assert (a + x)[1..] == a[1..] + x;
      TrimLeftPadding(a[1..], x, p);
    }
  }

  lemma {:induction false} TrimLeftAll(b: string, p: char -> bool)
    requires All(b, p)
    ensures TrimLeft(b, p) == ""
  {
    if b != "" {
      TrimLeftAll(b[1..], p);
    }
  }

  lemma {:induction false} TrimRightPadding(x: string, b: string, p: char -> bool)
    requires x != "" && !p(x[|x| - 1]) && All(b, p)
    ensures TrimRight(x + b, p) == x
  {
    if b == "" {
      assert x + b == x;
    } else {
      var last := |b| - 1;
      assert (x + b)[..|x + b| - 1] == x + b[..last];
      TrimRightPadding(x, b[..last], p);
    }
  }

  lemma {:induction false} JoinAppend(strs: seq<string>, x: string, sep: string)
    requires strs != []
    ensures Join(strs + [x], sep) == Join(strs, sep) + sep + x
  {
    var all := strs + [x];
    assert all[1..] == strs[1..] + [x];
    if |strs| > 1 {
      JoinAppend(strs[1..], x, sep);
    }
  }

  /** The piece is the string between white space. */
  ghost predicate Padded(piece: string, x: string) {
    exists a, b :: All(a, IsSpace) && All(b, IsSpace) && piece == a + x + b
  }

  lemma PaddedBy(a: string, x: string, b: string)
    requires All(a, IsSpace) && All(b, IsSpace)
    ensures Padded(a + x + b, x)
  {
  }

  lemma SpaceLacks(a: string, c: char)
    requires All(a, IsSpace) && !IsSpace(c)
    ensures Lacks(a, c)
  {
  }

  /** Splitting undoes joining, up to white space around the separator. */
  lemma {:induction false} SplitJoin(strs: seq<string>, lead: string, trail: string, before: string, c: char, after: string)
    requires strs != [] && !IsSpace(c) && forall i :: 0 <= i < |strs| ==> Lacks(strs[i], c)
    requires All(lead, IsSpace) && All(trail, IsSpace) && All(before, IsSpace) && All(after, IsSpace)
    ensures var pieces := Split(lead + Join(strs, before + [c] + after) + trail, c);
      |pieces| == |strs| && forall i :: 0 <= i < |strs| ==> Padded(pieces[i], strs[i])
  {
    hide Padded, Split, IsSpace;
    var sep := before + [c] + after;
    var x := strs[0];
    SpaceLacks(lead, c);
    if |strs| == 1 {
      SpaceLacks(trail, c);
      SplitWhole(lead + x + trail, c);
      PaddedBy(lead, x, trail);
    } else {
      SpaceLacks(before, c);
      var rest := Join(strs[1..], sep);
      SplitJoin(strs[1..], after, trail, before, c, after);
      SplitFirst(lead + x + before, c, after + rest + trail);
      assert lead + Join(strs, sep) + trail == (lead + x + before) + [c] + (after + rest + trail);
      PaddedBy(lead, x, before);
      assert forall i :: 1 <= i < |strs| ==> strs[i] == strs[1..][i - 1];
    }
  }

  lemma {:induction false} JoinLacks(strs: seq<string>, sep: string, c: char)
    requires Lacks(sep, c) && forall i :: 0 <= i < |strs| ==> Lacks(strs[i], c)
    ensures Lacks(Join(strs, sep), c)
  {
    if |strs| > 1 {
      JoinLacks(strs[1..], sep, c);
    }
  }

  lemma {:induction false} IndexAfter(a: string, c: char, b: string)
    requires Lacks(a, c)
    ensures Index(a + [c] + b, c) == |a|
  {
    if a != "" {
      assert (a + [c] + b)[1..] == a[1..] + [c] + b;
      IndexAfter(a[1..], c, b);
    }
  }
}
