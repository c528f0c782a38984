/** Text helpers that stand for the Go standard-library calls the core relies on:
    `%d` formatting, `strings.Join`, `strings.ReplaceAll` of one character,
    `%q` quoting, `html.EscapeString`, and the byte-wise order `sort.Strings` uses. */
module Text {

  // ---------------------------------------------------------------------------
  // Decimal rendering of naturals (`fmt.Sprintf("%d", n)` for n >= 0)
  // ---------------------------------------------------------------------------

  predicate IsDigit(c: char) {
    '0' <= c <= '9'
  }

  predicate AllDigits(s: string) {
    forall i :: 0 <= i < |s| ==> IsDigit(s[i])
  }

  function DigitChar(d: nat): (c: char)
    requires d < 10
    ensures IsDigit(c) && c as int - '0' as int == d
  {
    (('0' as int) + d) as char
  }

  /** The decimal text of `n`: only digits, never empty, no leading zero. */
  function NatToString(n: nat): (s: string)
    ensures |s| >= 1 && AllDigits(s)
    ensures |s| > 1 ==> s[0] != '0'
    ensures n < 10 <==> |s| == 1
    decreases n
  {
    if n < 10 then [DigitChar(n)] else NatToString(n / 10) + [DigitChar(n % 10)]
  }

  /** The inverse of `NatToString`, reading a digit string. */
  function ParseNat(s: string): nat
    requires AllDigits(s)
  {
    if s == [] then 0 else ParseNat(s[..|s| - 1]) * 10 + (s[|s| - 1] as int - '0' as int)
  }

  lemma {:induction false} ParseNatToString(n: nat)
    ensures ParseNat(NatToString(n)) == n
    decreases n
  {
    if n >= 10 {
      var s := NatToString(n);
      assert s[..|s| - 1] == NatToString(n / 10);
      ParseNatToString(n / 10);
    }
  }

  /** Different numbers render differently, so `n<k>` render ids never collide. */
  lemma NatToStringInjective(a: nat, b: nat)
    ensures NatToString(a) == NatToString(b) ==> a == b
  {
    ParseNatToString(a);
    ParseNatToString(b);
  }

  /** One step of a loop over a sequence: the prefix one longer ends in the
      next element. */
  lemma PrefixStep<T>(s: seq<T>, i: nat)
    requires i < |s|
    ensures s[..i + 1][..i] == s[..i] && s[..i + 1][i] == s[i]
    ensures s[..i + 1] == s[..i] + [s[i]]
  {
  }

  // ---------------------------------------------------------------------------
  // strings.Join and strings.ReplaceAll(s, " ", "_")
  // ---------------------------------------------------------------------------

  /** `strings.Join(parts, sep)`. */
  function Join(parts: seq<string>, sep: string): (r: string)
    ensures |parts| == 1 ==> r == parts[0]
    ensures parts == [] ==> r == ""
  {
    if parts == [] then ""
    else if |parts| == 1 then parts[0]
    else parts[0] + sep + Join(parts[1..], sep)
  }

  lemma JoinPair(parts: seq<string>, sep: string)
    requires |parts| == 2
    ensures Join(parts, sep) == parts[0] + sep + parts[1]
  {
    assert Join(parts[1..], sep) == parts[1];
  }

  lemma {:induction false} JoinLength(parts: seq<string>, sep: string)
    requires |parts| >= 1
    ensures |Join(parts, sep)| == Sum(parts) + (|parts| - 1) * |sep|
  {
    if |parts| > 1 {
      JoinLength(parts[1..], sep);
    }
  }

  /** Appending one more part: how a loop that writes a separator before
      every part but the first builds `Join`. */
  lemma {:induction false} JoinSnoc(parts: seq<string>, p: string, sep: string)
    ensures Join(parts + [p], sep) == if parts == [] then p else Join(parts, sep) + sep + p
    decreases |parts|
  {
    if |parts| > 1 {
      JoinSnoc(parts[1..], p, sep);
      assert (parts + [p])[1..] == parts[1..] + [p];
    } else if |parts| == 1 {
      assert (parts + [p])[1..] == [p];
    }
  }

  function Sum(parts: seq<string>): nat {
    if parts == [] then 0 else |parts[0]| + Sum(parts[1..])
  }

  /** `strings.ReplaceAll(s, " ", "_")`: every space becomes an underscore, nothing else moves. */
  function SpacesToUnderscores(s: string): (r: string)
    ensures |r| == |s|
    ensures forall i :: 0 <= i < |s| ==> r[i] == if s[i] == ' ' then '_' else s[i]
    ensures forall i :: 0 <= i < |r| ==> r[i] != ' '
  {
    if s == [] then [] else [if s[0] == ' ' then '_' else s[0]] + SpacesToUnderscores(s[1..])
  }

  // ---------------------------------------------------------------------------
  // `%q` of a string (strconv.Quote), for printable text and ASCII controls
  // ---------------------------------------------------------------------------

  function HexDigit(d: nat): char
    requires d < 16
  {
    "0123456789abcdef"[d]
  }

  /** The escape sequence `%q` writes for one character. */
  function QuoteChar(c: char): string {
    if c == '"' then "\\\""
    else if c == '\\' then "\\\\"
    else if c == '\n' then "\\n"
    else if c == '\t' then "\\t"
    else if c == '\r' then "\\r"
    else if c as int == 7 then "\\a"
    else if c as int == 8 then "\\b"
    else if c as int == 11 then "\\v"
    else if c as int == 12 then "\\f"
    else if c as int < 32 || c as int == 127 then "\\x" + [HexDigit(c as int / 16), HexDigit(c as int % 16)]
    else [c]
  }

  function QuoteBody(s: string): string {
    if s == [] then "" else QuoteChar(s[0]) + QuoteBody(s[1..])
  }

  /** `fmt.Sprintf("%q", s)`. */
  function Quote(s: string): (r: string)
    ensures |r| >= 2 && r[0] == '"' && r[|r| - 1] == '"'
  {
    "\"" + QuoteBody(s) + "\""
  }

  /** A character `%q` copies unchanged. */
  predicate Plain(c: char) {
    c != '"' && c != '\\' && 32 <= c as int && c as int != 127
  }

  lemma {:induction false} QuotePlain(s: string)
    requires forall i :: 0 <= i < |s| ==> Plain(s[i])
    ensures Quote(s) == "\"" + s + "\""
  {
    QuoteBodyPlain(s);
  }

  lemma {:induction false} QuoteBodyPlain(s: string)
    requires forall i :: 0 <= i < |s| ==> Plain(s[i])
    ensures QuoteBody(s) == s
  {
    if s != [] {
      QuoteBodyPlain(s[1..]);
    }
  }

  /** The body of `%q` never holds a bare double quote, so the quoted text ends at its last character. */
  lemma {:induction false} QuoteBodyHasNoBareQuote(s: string)
    ensures forall i :: 0 <= i < |QuoteBody(s)| && QuoteBody(s)[i] == '"' ==> i > 0 && QuoteBody(s)[i - 1] == '\\'
  {
    if s != [] {
      QuoteBodyHasNoBareQuote(s[1..]);
      var head, tail := QuoteChar(s[0]), QuoteBody(s[1..]);
      assert QuoteBody(s) == head + tail;
      forall i | 0 <= i < |head + tail| && (head + tail)[i] == '"'
        ensures i > 0 && (head + tail)[i - 1] == '\\'
      {
        if i >= |head| {
          var j := i - |head|;
          assert tail[j] == '"';
          if j == 0 {
            assert false;
          }
        }
      }
    }
  }

  // ---------------------------------------------------------------------------
  // html.EscapeString and its inverse
  // ---------------------------------------------------------------------------

  /** The entity `html.EscapeString` writes for one character. */
  function HtmlEscapeChar(c: char): string {
    if c == '<' then "&lt;"
    else if c == '>' then "&gt;"
    else if c == '&' then "&amp;"
    else if c == '\'' then "&#39;"
    else if c == '"' then "&#34;"
    else [c]
  }

  /** `html.EscapeString(s)`. */
  function HtmlEscape(s: string): (r: string)
    ensures forall i :: 0 <= i < |r| ==> r[i] != '<' && r[i] != '>' && r[i] != '"' && r[i] != '\''
    ensures |r| >= |s|
  {
    if s == [] then "" else HtmlEscapeChar(s[0]) + HtmlEscape(s[1..])
  }

  /** A character `html.EscapeString` leaves as it is. */
  predicate HtmlPlain(c: char) {
    c != '<' && c != '>' && c != '&' && c != '\'' && c != '"'
  }

  /** Text without the five special characters is not changed by escaping. */
  lemma {:induction false} HtmlEscapePlain(s: string)
    requires forall i :: 0 <= i < |s| ==> HtmlPlain(s[i])
    ensures HtmlEscape(s) == s
  {
    if s != [] {
      HtmlEscapePlain(s[1..]);
      assert [s[0]] + s[1..] == s;
    }
  }

  /** Reads back the five entities `HtmlEscape` writes. */
  function HtmlUnescape(s: string): string
    decreases |s|
  {
    if s == [] then ""
    else if |s| >= 4 && s[..4] == "&lt;" then "<" + HtmlUnescape(s[4..])
    else if |s| >= 4 && s[..4] == "&gt;" then ">" + HtmlUnescape(s[4..])
    else if |s| >= 5 && s[..5] == "&amp;" then "&" + HtmlUnescape(s[5..])
    else if |s| >= 5 && s[..5] == "&#39;" then "'" + HtmlUnescape(s[5..])
    else if |s| >= 5 && s[..5] == "&#34;" then "\"" + HtmlUnescape(s[5..])
    else [s[0]] + HtmlUnescape(s[1..])
  }

  /** One escaped character followed by any text unescapes to that character followed by the rest. */
  lemma UnescapeAfterEntity(c: char, rest: string)
    ensures HtmlUnescape(HtmlEscapeChar(c) + rest) == [c] + HtmlUnescape(rest)
  {
    var e := HtmlEscapeChar(c) + rest;
    if c == '<' || c == '>' {
      assert e[..4] == HtmlEscapeChar(c) && e[4..] == rest;
    } else if c == '&' {
      assert e[..5] == "&amp;" && e[5..] == rest;
      assert e[..4] != "&lt;" && e[..4] != "&gt;" by { assert e[..4][1] == 'a'; }
    } else if c == '\'' {
      assert e[..5] == "&#39;" && e[5..] == rest;
      assert e[..4][1] == '#';
      assert e[..5] != "&amp;" by { assert e[..5][1] == '#'; }
    } else if c == '"' {
      assert e[..5] == "&#34;" && e[5..] == rest;
      assert e[..4][1] == '#';
      assert e[..5] != "&amp;" by { assert e[..5][1] == '#'; }
      assert e[..5] != "&#39;" by { assert e[..5][3] == '4'; }
    } else {
      assert e[0] == c && e[1..] == rest;
      assert |e| >= 4 ==> e[..4][0] == c;
      assert |e| >= 5 ==> e[..5][0] == c;
    }
  }

  /** Escaping loses nothing: the label a Mermaid node shows can be read back exactly. */
  lemma {:induction false} HtmlEscapeRoundTrip(s: string)
    ensures HtmlUnescape(HtmlEscape(s)) == s
  {
    if s != [] {
      assert HtmlEscape(s) == HtmlEscapeChar(s[0]) + HtmlEscape(s[1..]);
      UnescapeAfterEntity(s[0], HtmlEscape(s[1..]));
      HtmlEscapeRoundTrip(s[1..]);
      assert s == [s[0]] + s[1..];
    }
  }

  // ---------------------------------------------------------------------------
  // Lexicographic order on strings (the order of sort.Strings)
  // ---------------------------------------------------------------------------

  /** `a` sorts strictly before `b`: a proper prefix, or smaller at the first difference. */
  predicate Less(a: string, b: string) {
    if b == [] then false
    else if a == [] then true
    else if a[0] != b[0] then a[0] < b[0]
    else Less(a[1..], b[1..])
  }

  lemma {:induction false} LessIrreflexive(a: string)
    ensures !Less(a, a)
  {
    if a != [] {
      LessIrreflexive(a[1..]);
    }
  }

  lemma {:induction false} LessTransitive(a: string, b: string, c: string)
    requires Less(a, b) && Less(b, c)
    ensures Less(a, c)
  {
    if a != [] && a[0] == b[0] && b[0] == c[0] {
      LessTransitive(a[1..], b[1..], c[1..]);
    }
  }

  lemma {:induction false} LessTotal(a: string, b: string)
    ensures a == b || Less(a, b) || Less(b, a)
  {
    if a != [] && b != [] && a[0] == b[0] {
      LessTotal(a[1..], b[1..]);
      if a[1..] == b[1..] {
        assert a == [a[0]] + a[1..] && b == [b[0]] + b[1..];
      }
    }
  }

  lemma LessAsymmetric(a: string, b: string)
    requires Less(a, b)
    ensures !Less(b, a)
  {
    if Less(b, a) {
      LessTransitive(a, b, a);
      LessIrreflexive(a);
    }
  }

  predicate StrictlySorted(s: seq<string>) {
    forall i, j :: 0 <= i < j < |s| ==> Less(s[i], s[j])
  }

  /** The smallest element of a non-empty finite set. */
  lemma {:induction false} MinimumExists(keys: set<string>)
    requires keys != {}
    ensures exists m :: m in keys && forall y :: y in keys && y != m ==> Less(m, y)
    decreases |keys|
  {
    var x :| x in keys;
    if keys != {x} {
      MinimumExists(keys - {x});
      var m :| m in keys - {x} && forall y :: y in keys - {x} && y != m ==> Less(m, y);
      LessTotal(x, m);
      if Less(x, m) {
        forall y | y in keys && y != x
          ensures Less(x, y)
        {
          if y != m {
            LessTransitive(x, m, y);
          }
        }
      } else {
        assert m in keys && forall y :: y in keys && y != m ==> Less(m, y);
      }
    } else {
      assert forall y :: y in keys ==> y == x;
    }
  }

  /** The keys of a set in ascending order: what the `sorted*Keys` helpers return. */
  ghost function Sorted(keys: set<string>): (r: seq<string>)
    ensures StrictlySorted(r)
    ensures |r| == |keys|
    ensures forall x :: x in r <==> x in keys
    decreases |keys|
  {
    if keys == {} then []
    else
      MinimumExists(keys);
      var m :| m in keys && forall y :: y in keys && y != m ==> Less(m, y);
      var rest := Sorted(keys - {m});
      assert forall j :: 0 <= j < |rest| ==> Less(m, rest[j]) by {
        forall j | 0 <= j < |rest| ensures Less(m, rest[j]) {
          assert rest[j] in rest;
        }
      }
      [m] + rest
  }

  /** A strictly sorted sequence is determined by its elements. */
  lemma {:induction false} SortedUnique(a: seq<string>, b: seq<string>)
    requires StrictlySorted(a) && StrictlySorted(b)
    requires forall x :: x in a <==> x in b
    ensures a == b
    decreases |a|
  {
    if a != [] || b != [] {
      assert a != [] && b != [] by {
        if a != [] { assert a[0] in b; }
        if b != [] { assert b[0] in a; }
      }
      assert a[0] == b[0] by {
        assert a[0] in b && b[0] in a;
        var i :| 0 <= i < |b| && b[i] == a[0];
        var j :| 0 <= j < |a| && a[j] == b[0];
        if i != 0 && j != 0 {
          LessAsymmetric(b[0], a[0]);
        }
      }
      LessIrreflexive(a[0]);
      forall x | x in a[1..]
        ensures x in b[1..]
      {
        var i :| 0 <= i < |a[1..]| && a[1..][i] == x;
        assert Less(a[0], a[i + 1]);
        assert x in b;
        var k :| 0 <= k < |b| && b[k] == x;
        assert b[1..][k - 1] == x;
      }
      forall x | x in b[1..]
        ensures x in a[1..]
      {
        var i :| 0 <= i < |b[1..]| && b[1..][i] == x;
        assert Less(b[0], b[i + 1]);
        assert x in a;
        var k :| 0 <= k < |a| && a[k] == x;
        assert a[1..][k - 1] == x;
      }
      SortedUnique(a[1..], b[1..]);
      assert a == [a[0]] + a[1..] && b == [b[0]] + b[1..];
    }
  }

  /** Inserts `x` into its place in a sorted sequence that does not hold it. */
  function Insert(s: seq<string>, x: string): (r: seq<string>)
    requires StrictlySorted(s) && x !in s
    ensures StrictlySorted(r)
    ensures forall y :: y in r <==> y in s || y == x
    ensures |r| == |s| + 1
  {
    if s == [] then [x]
    else
      LessTotal(x, s[0]);
      if Less(x, s[0]) then
        assert forall j :: 0 <= j < |s| ==> Less(x, s[j]) by {
          forall j | 0 <= j < |s| ensures Less(x, s[j]) {
            if j > 0 { LessTransitive(x, s[0], s[j]); }
          }
        }
        [x] + s
      else
        var rest := Insert(s[1..], x);
        assert x != s[0];
        assert forall j :: 0 <= j < |rest| ==> Less(s[0], rest[j]) by {
          forall j | 0 <= j < |rest| ensures Less(s[0], rest[j]) {
            assert rest[j] in rest;
            if rest[j] != x {
              assert rest[j] in s[1..];
              var k :| 0 <= k < |s[1..]| && s[1..][k] == rest[j];
              assert s[k + 1] == rest[j];
            }
          }
        }
        [s[0]] + rest
  }

  lemma SortedNone()
    ensures Sorted({}) == []
  {
  }

  lemma SortedOne(a: string)
    ensures Sorted({a}) == [a]
  {
    SortedUnique(Sorted({a}), [a]);
  }

  lemma SortedTwo(a: string, b: string)
    requires Less(a, b)
    ensures Sorted({a, b}) == [a, b]
  {
    SortedUnique(Sorted({a, b}), [a, b]);
  }

  /** Computes `Sorted(keys)`: the keys of a Go map, collected and sorted. */
  method SortedKeys(keys: set<string>) returns (r: seq<string>)
    ensures r == Sorted(keys)
  {
    r := [];
    var rest := keys;
    while rest != {}
      invariant rest <= keys
      invariant StrictlySorted(r)
      invariant forall x :: x in r <==> x in keys && x !in rest
      decreases |rest|
    {
      var x :| x in rest;
      r := Insert(r, x);
      rest := rest - {x};
    }
    SortedUnique(r, Sorted(keys));
  }
}
