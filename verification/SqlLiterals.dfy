/** SQL string literals: quoting with doubled quotes (section 5.3 of ISO/IEC 9075-2), and the scan that
    reads every literal back out of a constraint definition. */
module SqlLiterals {
  import opened Wrappers

  const Q: char := '\''

  function Escape(v: string): string
  {
    if v == "" then ""
    else (if v[0] == Q then [Q, Q] else [v[0]]) + Escape(v[1..])
  }

  function SqlLit(v: string): string
  {
    [Q] + Escape(v) + [Q]
  }

  /** replace(/''/g, "'"). */
  function Unescape(s: string): string
  {
    if s == "" then ""
    else if |s| >= 2 && s[0] == Q && s[1] == Q then [Q] + Unescape(s[2..])
    else [s[0]] + Unescape(s[1..])
  }

  /** Where the literal opened just before s closes: the pattern takes characters and doubled quotes
      greedily, and gives a doubled quote back when nothing closes the literal after it. */
  function ClosingQuote(s: string): (r: Option<nat>)
    ensures r.Some? ==> r.value < |s| && s[r.value] == Q
  {
    if s == "" then None
    else if s[0] != Q then
      var r := ClosingQuote(s[1..]);
      if r.None? then None else Some(r.value + 1)
    else if |s| >= 2 && s[1] == Q then
      var r := ClosingQuote(s[2..]);
      if r.None? then Some(0) else Some(r.value + 2)
    else Some(0)
  }

  /** What the repeated group of the pattern matches: characters other than the quote, and doubled quotes. */
  ghost predicate Units(t: string)
  {
    || t == ""
    || (t[0] != Q && Units(t[1..]))
    || (|t| >= 2 && t[0] == Q && t[1] == Q && Units(t[2..]))
  }

  /** The literal could close at n. */
  ghost predicate CanClose(s: string, n: nat)
  {
    n < |s| && s[n] == Q && Units(s[..n])
  }

  /** The pattern is greedy: the literal closes at the last place where it could, and nowhere only if it cannot. */
  lemma {:induction false} ClosesExactly(s: string, n: nat)
    ensures var r := ClosingQuote(s);
      && (r.Some? ==> CanClose(s, r.value))
      && (CanClose(s, n) ==> r.Some? && n <= r.value)
  {
    if s != "" && s[0] != Q {
      ClosesExactly(s[1..], if n > 0 then n - 1 else 0);
      CloseShifts(s, 1, n);
      if ClosingQuote(s[1..]).Some? {
        CloseShifts(s, 1, ClosingQuote(s[1..]).value + 1);
      }
    } else if |s| >= 2 && s[1] == Q {
      ClosesExactly(s[2..], if n > 1 then n - 2 else 0);
      CloseShifts(s, 2, n);
      if ClosingQuote(s[2..]).Some? {
        CloseShifts(s, 2, ClosingQuote(s[2..]).value + 2);
      }
    } else if s != "" {
      CloseStuck(s, n);
    }
  }

  /** Past a first unit of k characters the question is the same on the rest. */
  lemma {:induction false} CloseShifts(s: string, k: nat, n: nat)
    requires s != "" && ((k == 1 && s[0] != Q) || (k == 2 && |s| >= 2 && s[0] == Q && s[1] == Q))
    ensures n >= k ==> (CanClose(s, n) <==> CanClose(s[k..], n - k))
    ensures 0 < n < k ==> !CanClose(s, n)
  {
    if k <= n < |s| {
      assert s[..n][k..] == s[k..][..n - k];
    }
  }

  lemma {:induction false} CloseStuck(s: string, n: nat)
    requires s != "" && s[0] == Q && (|s| == 1 || s[1] != Q)
    ensures CanClose(s, n) <==> n == 0
  {
  }

  /** Every literal of the text, unescaped, from left to right. */
  function Scan(s: string): seq<string>
    decreases |s|
  {
    if s == "" then []
    else if s[0] != Q then Scan(s[1..])
    else
      var r := ClosingQuote(s[1..]);
      if r.None? then Scan(s[1..])
      else [Unescape(s[1..][..r.value])] + Scan(s[1..][r.value + 1..])
  }

  /** One step of the scan on a non-empty text, r being where a literal that opens it closes in the rest. */
  lemma {:induction false} ScanStep(text: string, rest: string, r: Option<nat>)
    requires text != "" && rest == text[1..] && r == (if text[0] == Q then ClosingQuote(rest) else None)
    ensures Scan(text) == if r.None? then Scan(rest) else [Unescape(rest[..r.value])] + Scan(rest[r.value + 1..])
  {
  }

  /** parseAllowedValues: the regular expression is executed again on the text after each match. */
  method ParseAllowedValues(def: Option<string>) returns (out: seq<string>)
    ensures out == if def.None? then [] else Scan(def.value)
  {
    out := [];
    if def.None? {
      return;
    }
    var text := def.value;
    while text != ""
      invariant out + Scan(text) == Scan(def.value)
      decreases |text|
    {
      var rest := text[1..];
      var close := if text[0] == Q then ClosingQuote(rest) else None;
      ScanStep(text, rest, close);
      if close.Some? {
        out := out + [Unescape(rest[..close.value])];
        text := rest[close.value + 1..];
      } else {
        text := rest;
      }
    }
  }

  // ---------------------------------------------------------------- round trip

  ghost predicate QuoteFree(s: string)
  {
    forall i :: 0 <= i < |s| ==> s[i] != Q
  }

  lemma {:induction false} UnescapeFirst(c: char, rest: string)
    ensures Unescape((if c == Q then [Q, Q] else [c]) + rest) == [c] + Unescape(rest)
  {
    if c == Q {
      assert ([Q, Q] + rest)[2..] == rest;
    } else {
      assert ([c] + rest)[1..] == rest;
    }
  }

  lemma {:induction false} UnescapeEscape(v: string)
    ensures Unescape(Escape(v)) == v
  {
    if v != "" {
      UnescapeEscape(v[1..]);
      UnescapeFirst(v[0], Escape(v[1..]));
      assert v == [v[0]] + v[1..];
    }
  }

  lemma {:induction false} ClosesAfterEscape(v: string, rest: string)
    requires rest == "" || rest[0] != Q
    ensures ClosingQuote(Escape(v) + ([Q] + rest)) == Some(|Escape(v)|)
  {
    var s := Escape(v) + ([Q] + rest);
    if v == "" {
      assert s == [Q] + rest;
    } else {
      ClosesAfterEscape(v[1..], rest);
      if v[0] == Q {
        assert s[2..] == Escape(v[1..]) + ([Q] + rest);
      } else {
        assert s[1..] == Escape(v[1..]) + ([Q] + rest);
      }
    }
  }

  lemma {:induction false} ScanLiteral(v: string, rest: string)
    requires rest == "" || rest[0] != Q
    ensures Scan(SqlLit(v) + rest) == [v] + Scan(rest)
  {
    var s := SqlLit(v) + rest;
    var e := Escape(v);
    assert s[1..] == e + ([Q] + rest);
    ClosesAfterEscape(v, rest);
    UnescapeEscape(v);
    assert s[1..][..|e|] == e;
    assert s[1..][|e| + 1..] == rest;
  }

  lemma {:induction false} ScanSkips(quiet: string, rest: string)
    requires QuoteFree(quiet)
    ensures Scan(quiet + rest) == Scan(rest)
  {
    if quiet == "" {
      assert quiet + rest == rest;
    } else {
      assert (quiet + rest)[1..] == quiet[1..] + rest;
      ScanSkips(quiet[1..], rest);
    }
  }

  lemma {:induction false} ScanQuiet(quiet: string)
    requires QuoteFree(quiet)
    ensures Scan(quiet) == []
  {
    assert quiet + "" == quiet;
    ScanSkips(quiet, "");
  }

  /** The literals of the values, joined by a separator. */
  function Join(vs: seq<string>, sep: string): string
  {
    if vs == [] then ""
    else if |vs| == 1 then SqlLit(vs[0])
    else SqlLit(vs[0]) + (sep + Join(vs[1..], sep))
  }

  /** How a constraint is printed: text before, between and after its literals. */
  datatype Format = Format(pre: string, sep: string, post: string)

  ghost predicate ValidFormat(f: Format)
  {
    QuoteFree(f.pre) && QuoteFree(f.sep) && QuoteFree(f.post) && f.sep != ""
  }

  function Render(f: Format, vs: seq<string>): string
  {
    f.pre + (Join(vs, f.sep) + f.post)
  }

  lemma {:induction false} ScanNext(vs: seq<string>, sep: string, post: string)
    requires |vs| >= 2 && QuoteFree(sep) && sep != ""
    ensures Scan(Join(vs, sep) + post) == [vs[0]] + Scan(Join(vs[1..], sep) + post)
  {
    var tail := Join(vs[1..], sep) + post;
    assert Join(vs, sep) + post == SqlLit(vs[0]) + (sep + tail);
    ScanLiteral(vs[0], sep + tail);
    ScanSkips(sep, tail);
  }

  lemma {:induction false} ScanJoined(vs: seq<string>, sep: string, post: string)
    requires QuoteFree(sep) && sep != "" && QuoteFree(post)
    ensures Scan(Join(vs, sep) + post) == vs
  {
    ScanQuiet(post);
    if vs == [] {
      assert Join(vs, sep) + post == post;
    } else if |vs| == 1 {
      ScanLiteral(vs[0], post);
    } else {
      ScanJoined(vs[1..], sep, post);
      ScanNext(vs, sep, post);
    }
  }

  /** Scanning a printed constraint gives back its values, in order: empty values and values that start, end or
      consist of quotes included. */
  lemma {:induction false} ScanRender(f: Format, vs: seq<string>)
    requires ValidFormat(f)
    ensures Scan(Render(f, vs)) == vs
  {
    ScanSkips(f.pre, Join(vs, f.sep) + f.post);
    ScanJoined(vs, f.sep, f.post);
  }

  // ---------------------------------------------------------------- the text search for 'dodo'

  const DODO: string := "dodo"

  /** /'dodo'/.test(s). */
  predicate HasQuotedDodo(s: string)
  {
    |s| >= 6 && (s[..6] == "'dodo'" || HasQuotedDodo(s[1..]))
  }

  /** The pieces between the quotes of a text. */
  function Split(s: string): (r: seq<string>)
    ensures |r| >= 1
  {
    if s == "" then [""]
    else
      var r := Split(s[1..]);
      if s[0] == Q then [""] + r else [[s[0]] + r[0]] + r[1..]
  }

  /** h is what s has before its first quote. */
  ghost predicate BeforeQuote(s: string, h: string)
  {
    QuoteFree(h) && |h| <= |s| && s[..|h|] == h && (|h| < |s| ==> s[|h|] == Q)
  }

  lemma {:induction false} BeforeQuoteGrows(s: string, h: string)
    requires s != "" && s[0] != Q && BeforeQuote(s[1..], h)
    ensures BeforeQuote(s, [s[0]] + h)
  {
    assert s == [s[0]] + s[1..];
    assert s[..|h| + 1] == [s[0]] + s[1..][..|h|];
  }

  lemma {:induction false} SplitHead(s: string)
    ensures BeforeQuote(s, Split(s)[0])
    ensures |Split(s)| == 1 <==> |Split(s)[0]| == |s|
  {
    if s != "" {
      SplitHead(s[1..]);
      if s[0] != Q {
        BeforeQuoteGrows(s, Split(s[1..])[0]);
      }
    }
  }

  lemma {:induction false} StartsWithDodo(s: string)
    ensures |s| >= 5 && s[..5] == "dodo'" <==> |Split(s)| >= 2 && Split(s)[0] == DODO
  {
    SplitHead(s);
    var h := Split(s)[0];
    if |s| >= 5 && s[..5] == "dodo'" {
      assert s[0] == 'd' && s[1] == 'o' && s[2] == 'd' && s[3] == 'o' && s[4] == Q;
      assert |h| == 4;
      assert h == s[..4] == DODO;
    }
    if |Split(s)| >= 2 && h == DODO {
      assert s[..5] == s[..4] + [s[4]];
    }
  }

  /** The pieces that have a quote on both sides. */
  function Interior(ps: seq<string>): seq<string>
  {
    if |ps| <= 2 then [] else ps[1..|ps| - 1]
  }

  lemma {:induction false} SearchExact(s: string)
    ensures HasQuotedDodo(s) <==> DODO in Interior(Split(s))
  {
    if s != "" {
      var t := s[1..];
      SearchExact(t);
      StartsWithDodo(t);
      SearchStep(s);
      InteriorStep(s);
    }
  }

  lemma {:induction false} InteriorStep(s: string)
    requires s != ""
    ensures var ps := Split(s[1..]);
      DODO in Interior(Split(s)) <==> (s[0] == Q && |ps| >= 2 && ps[0] == DODO) || DODO in Interior(ps)
  {
    var ps := Split(s[1..]);
    if s[0] == Q {
      InteriorCons("", ps);
    } else {
      InteriorSameTail([s[0]] + ps[0], ps);
    }
  }

  lemma {:induction false} InteriorCons(x: string, ps: seq<string>)
    requires |ps| >= 1
    ensures DODO in Interior([x] + ps) <==> (|ps| >= 2 && ps[0] == DODO) || DODO in Interior(ps)
  {
    if |ps| >= 2 {
      assert Interior([x] + ps) == [ps[0]] + Interior(ps);
    }
  }

  lemma {:induction false} InteriorSameTail(x: string, ps: seq<string>)
    requires |ps| >= 1
    ensures Interior([x] + ps[1..]) == Interior(ps)
  {
  }

  lemma {:induction false} SearchStep(s: string)
    requires s != ""
    ensures HasQuotedDodo(s) <==> (s[0] == Q && |s[1..]| >= 5 && s[1..][..5] == "dodo'") || HasQuotedDodo(s[1..])
  {
    if |s| >= 6 {
      assert s[..6] == [s[0]] + s[1..][..5];
      assert "'dodo'" == [Q] + "dodo'";
      assert s[..6][1..] == s[1..][..5] && "'dodo'"[1..] == "dodo'";
    }
  }

  lemma {:induction false} SplitAtQuote(a: string, b: string)
    ensures Split(a + ([Q] + b)) == Split(a) + Split(b)
  {
    var s := a + ([Q] + b);
    if a == "" {
      assert s == [Q] + b;
      assert s[1..] == b;
    } else {
      assert s[1..] == a[1..] + ([Q] + b);
      SplitAtQuote(a[1..], b);
      Prepend(a[0], Split(a[1..]), Split(b));
    }
  }

  lemma {:induction false} Prepend(c: char, ps: seq<string>, qs: seq<string>)
    requires |ps| >= 1
    ensures [""] + (ps + qs) == ([""] + ps) + qs
    ensures [[c] + (ps + qs)[0]] + (ps + qs)[1..] == ([[c] + ps[0]] + ps[1..]) + qs
  {
  }

  lemma {:induction false} SplitQuoteFree(s: string)
    requires QuoteFree(s)
    ensures Split(s) == [s]
  {
    if s != "" {
      SplitQuoteFree(s[1..]);
      assert s == [s[0]] + s[1..];
    }
  }

  lemma {:induction false} SplitDoubled(e: string)
    ensures Split([Q, Q] + e) == ["", ""] + Split(e) && Split([Q, Q] + e)[1..] == [""] + Split(e)
  {
    assert ([Q, Q] + e)[1..] == [Q] + e && ([Q] + e)[1..] == e;
    assert Split([Q] + e) == [""] + Split(e);
  }

  /** Doubling the quotes adds only empty pieces. */
  lemma {:induction false} SplitEscape(v: string)
    ensures Split(Escape(v))[0] == Split(v)[0]
    ensures DODO in Split(Escape(v))[1..] <==> DODO in Split(v)[1..]
  {
    if v != "" {
      var t := v[1..];
      SplitEscape(t);
      var e := Escape(v);
      if v[0] == Q {
        SplitDoubled(Escape(t));
        assert Split(v)[1..] == Split(t);
        PieceMembership(Split(Escape(t)));
        PieceMembership(Split(t));
      } else {
        assert e[1..] == Escape(t);
        assert Split(e)[1..] == Split(Escape(t))[1..];
        assert Split(v)[1..] == Split(t)[1..];
      }
    }
  }

  lemma {:induction false} PieceMembership(ps: seq<string>)
    requires |ps| >= 1
    ensures DODO in ps <==> ps[0] == DODO || DODO in ps[1..]
  {
    assert ps == [ps[0]] + ps[1..];
  }

  /** A value whose quotes set off the piece "dodo"; the plain value "dodo" is the ordinary case. */
  predicate LooksLikeDodo(v: string)
  {
    DODO in Split(v)
  }

  function Pieces(vs: seq<string>, sep: string): seq<string>
  {
    if vs == [] then []
    else if |vs| == 1 then Split(Escape(vs[0]))
    else Split(Escape(vs[0])) + [sep] + Pieces(vs[1..], sep)
  }

  lemma {:induction false} SplitLiteral(pre: string, v: string, tail: string)
    ensures Split(pre + (SqlLit(v) + tail)) == Split(pre) + (Split(Escape(v)) + Split(tail))
  {
    var e := Escape(v);
    assert pre + (SqlLit(v) + tail) == pre + ([Q] + (e + ([Q] + tail)));
    SplitAtQuote(pre, e + ([Q] + tail));
    SplitAtQuote(e, tail);
  }

  lemma {:induction false} Regroup(here: seq<string>, sep: string, rest: seq<string>, post: string)
    ensures here + ([sep] + (rest + [post])) == (here + [sep] + rest) + [post]
  {
  }

  lemma {:induction false} SplitFirst(vs: seq<string>, pre: string, sep: string, post: string)
    requires |vs| >= 2
    ensures Split(pre + (Join(vs, sep) + post)) ==
      Split(pre) + (Split(Escape(vs[0])) + Split(sep + (Join(vs[1..], sep) + post)))
  {
    var tail := sep + (Join(vs[1..], sep) + post);
    assert Join(vs, sep) + post == SqlLit(vs[0]) + tail;
    SplitLiteral(pre, vs[0], tail);
  }

  lemma {:induction false} SplitJoined(vs: seq<string>, pre: string, sep: string, post: string)
    requires vs != [] && QuoteFree(pre) && QuoteFree(sep) && QuoteFree(post)
    ensures Split(pre + (Join(vs, sep) + post)) == [pre] + (Pieces(vs, sep) + [post])
  {
    SplitQuoteFree(pre);
    if |vs| == 1 {
      SplitLiteral(pre, vs[0], post);
      SplitQuoteFree(post);
    } else {
      SplitFirst(vs, pre, sep, post);
      SplitJoined(vs[1..], sep, sep, post);
      Regroup(Split(Escape(vs[0])), sep, Pieces(vs[1..], sep), post);
    }
  }

  lemma {:induction false} PiecesHaveDodo(vs: seq<string>, sep: string)
    requires sep != DODO
    ensures DODO in Pieces(vs, sep) <==> exists v :: v in vs && LooksLikeDodo(v)
  {
    if vs != [] {
      SplitEscape(vs[0]);
      var here, rest := Split(Escape(vs[0])), Pieces(vs[1..], sep);
      PieceMembership(here);
      PieceMembership(Split(vs[0]));
      PiecesHaveDodo(vs[1..], sep);
      assert DODO in here <==> LooksLikeDodo(vs[0]);
      assert DODO in Pieces(vs, sep) <==> DODO in here || DODO in rest;
      assert forall v :: v in vs <==> v == vs[0] || v in vs[1..];
    }
  }

  /** The text search finds 'dodo' in a printed constraint exactly when some allowed value has "dodo" between
      quotes or ends. */
  lemma {:induction false} SearchRender(f: Format, vs: seq<string>)
    requires ValidFormat(f) && f.sep != DODO
    ensures HasQuotedDodo(Render(f, vs)) <==> exists v :: v in vs && LooksLikeDodo(v)
  {
    SearchExact(Render(f, vs));
    if vs == [] {
      var s := Render(f, vs);
      assert QuoteFree(s);
      SplitQuoteFree(s);
    } else {
      SplitJoined(vs, f.pre, f.sep, f.post);
      var ps := Pieces(vs, f.sep);
      assert |ps| >= 1;
      assert Interior([f.pre] + (ps + [f.post])) == ps;
      PiecesHaveDodo(vs, f.sep);
    }
  }
}
