/** How a name gets from one node to the next: it becomes part of a URL, which the web server opens, and is taken from
    the path of the request at the other end (src/resp.c:17-71, starter/webserver.py:99-154). */
module Relaying {
  import opened HashTables

  /** escape_html_str: a leading '/' becomes two backslashes. */
  ghost function Escape(name: string): string
  {
    if name != "" && name[0] == '/' then "\\\\" + name[1..] else name
  }

  /** relay_request: a leading backslash and the character behind it become a '/'. */
  ghost function Unescape(name: string): string
  {
    if name != "" && name[0] == '\\' then "/" + (if |name| >= 2 then name[2..] else "") else name
  }

  /** The URL opener strips white space from the end of a URL. */
  ghost function Strip(url: string): string
  {
    if url != "" && url[|url| - 1] == ' ' then Strip(url[..|url| - 1]) else url
  }

  const HEX_DIGITS := "0123456789ABCDEF"

  /** The characters that the URL opener sends as they are. */
  ghost predicate Safe(c: char)
  {
    'a' <= c <= 'z' || 'A' <= c <= 'Z' || '0' <= c <= '9' || c in "_.-%/:=&?~#+!$,;'@()*[]|"
  }

  /** Percent-encoding (RFC 3986, section 2.1) of one character. */
  function Escaped(c: char): string
    requires 0 <= c as int < 256
  {
    ['%', HEX_DIGITS[c as int / 16], HEX_DIGITS[c as int % 16]]
  }

  /** It is applied to all characters that are not safe. */
  ghost function Quote(url: string): string
    requires Printable(url)
  {
    if url == "" then ""
    else if Safe(url[0]) then [url[0]] + Quote(url[1..])
    else Escaped(url[0]) + Quote(url[1..])
  }

  /** The path of a URL ends at the first '?' or '#' (RFC 3986, section 3.3). */
  ghost function PathPart(url: string): string
  {
    if url == "" || url[0] == '?' || url[0] == '#' then "" else [url[0]] + PathPart(url[1..])
  }

  ghost function HexValue(c: char): int
  {
    if '0' <= c <= '9' then c as int - '0' as int
    else if 'A' <= c <= 'F' then c as int - 'A' as int + 10
    else if 'a' <= c <= 'f' then c as int - 'a' as int + 10
    else -1
  }

  /** A percent-encoded character stands at the front. */
  ghost predicate Encoded(url: string)
  {
    |url| >= 3 && url[0] == '%' && HexValue(url[1]) >= 0 && HexValue(url[2]) >= 0
  }

  ghost function Decode(url: string): string
  {
    if url == "" then ""
    else if Encoded(url) then [(16 * HexValue(url[1]) + HexValue(url[2])) as char] + Decode(url[3..])
    else [url[0]] + Decode(url[1..])
  }

  /** The object that the route "/rd/<port>/<path>" hands over; a path is not empty and does not begin with a '/'. */
  ghost function Routed(url: string): Option<string>
    requires Printable(url)
  {
    StripPrintable(url);
    var obj := Decode(PathPart(Quote(Strip(url))));
    if obj == "" || obj[0] == '/' then None else Some(obj)
  }

  /** What the next node's daemon is asked for when a request for `name` is passed on. */
  ghost function Relay(name: string): Option<string>
    requires Printable(name)
  {
    var obj := Routed(Escape(name));
    if obj.None? then None else Some(Unescape(obj.value))
  }

  /** Printable ASCII. */
  ghost predicate Printable(name: string)
  {
    forall i :: 0 <= i < |name| ==> ' ' <= name[i] <= '~'
  }

  ghost predicate HasEncoded(name: string)
  {
    exists i :: 0 <= i < |name| && Encoded(name[i..])
  }

  /** Nothing in the URL is cut off, stripped or decoded. */
  ghost predicate UrlPlain(url: string)
  {
    && '?' !in url && '#' !in url && !HasEncoded(url)
    && (url != "" ==> url[|url| - 1] != ' ')
  }

  /** A name that arrives as it was sent. */
  ghost predicate Relayable(name: string)
  {
    Printable(name) && name != "" && name[0] != '\\' && UrlPlain(name)
  }

  lemma {:induction false} StripPrintable(url: string)
    requires Printable(url)
    ensures Printable(Strip(url)) && |Strip(url)| <= |url|
    ensures Strip(url) == url <==> |Strip(url)| == |url|
    ensures |Strip(url)| == |url| <==> url == "" || url[|url| - 1] != ' '
  {
    if url != "" && url[|url| - 1] == ' ' {
      StripPrintable(url[..|url| - 1]);
    }
  }

  lemma HexDigit(k: int)
    requires 0 <= k < 16
    ensures HexValue(HEX_DIGITS[k]) == k && HEX_DIGITS[k] != '?' && HEX_DIGITS[k] != '#'
  {
  }

  /** Encoding hides none of the characters that end the path. */
  lemma {:induction false} PathOfQuote(url: string)
    requires Printable(url)
    ensures Printable(PathPart(url)) && PathPart(Quote(url)) == Quote(PathPart(url))
  {
    if url != "" && url[0] != '?' && url[0] != '#' {
      PathOfQuote(url[1..]);
      if Safe(url[0]) {
        SafePath(url, PathPart(url[1..]));
      } else {
        UnsafePath(url, PathPart(url[1..]));
      }
    }
  }

  lemma SafePath(url: string, rest: string)
    requires Printable(url) && url != "" && url[0] != '?' && url[0] != '#' && Safe(url[0])
    requires rest == PathPart(url[1..]) && Printable(rest) && PathPart(Quote(url[1..])) == Quote(rest)
    ensures Printable(PathPart(url)) && PathPart(Quote(url)) == Quote(PathPart(url))
  {
    assert ([url[0]] + rest)[1..] == rest && Quote(url)[1..] == Quote(url[1..]);
  }

  lemma UnsafePath(url: string, rest: string)
    requires Printable(url) && url != "" && url[0] != '?' && url[0] != '#' && !Safe(url[0])
    requires rest == PathPart(url[1..]) && Printable(rest) && PathPart(Quote(url[1..])) == Quote(rest)
    ensures Printable(PathPart(url)) && PathPart(Quote(url)) == Quote(PathPart(url))
  {
    UnsafeFront(url);
    PathSkips(Quote(url), Quote(url[1..]));
    UnsafeQuote(url[0], rest);
    assert PathPart(url) == [url[0]] + rest;
  }

  lemma UnsafeQuote(c: char, rest: string)
    requires ' ' <= c <= '~' && Printable([c] + rest) && Printable(rest) && !Safe(c)
    ensures Quote([c] + rest) == Escaped(c) + Quote(rest)
  {
    assert ([c] + rest)[1..] == rest;
  }

  lemma UnsafeFront(url: string)
    requires Printable(url) && url != "" && !Safe(url[0])
    ensures |Quote(url)| >= 3 && Quote(url)[..3] == Escaped(url[0]) && Quote(url)[3..] == Quote(url[1..])
    ensures forall i :: 0 <= i < 3 ==> Quote(url)[i] != '?' && Quote(url)[i] != '#'
  {
    HexDigit(url[0] as int / 16);
    HexDigit(url[0] as int % 16);
    assert Quote(url) == Escaped(url[0]) + Quote(url[1..]);
  }

  lemma PathCons(c: char, url: string)
    requires c != '?' && c != '#'
    ensures PathPart([c] + url) == [c] + PathPart(url)
  {
    assert ([c] + url)[1..] == url;
  }

  lemma QuoteCons(c: char, url: string)
    requires Printable([c] + url) && Safe(c)
    ensures Printable(url) && Quote([c] + url) == [c] + Quote(url)
  {
    var u := [c] + url;
    assert u[1..] == url;
    forall i | 0 <= i < |url|
      ensures ' ' <= url[i] <= '~'
    {
      assert url[i] == u[i + 1];
    }
  }

  lemma PathSkips(url: string, rest: string)
    requires |url| >= 3 && url[3..] == rest && forall i :: 0 <= i < 3 ==> url[i] != '?' && url[i] != '#'
    ensures PathPart(url) == url[..3] + PathPart(rest)
  {
    var two, three := [url[2]] + rest, [url[1]] + ([url[2]] + rest);
    PathCons(url[2], rest);
    PathCons(url[1], two);
    PathCons(url[0], three);
    assert url == [url[0]] + three;
    assert url[..3] + PathPart(rest) == [url[0]] + ([url[1]] + ([url[2]] + PathPart(rest)));
  }

  lemma QuoteFirst(url: string)
    requires Printable(url) && url != ""
    ensures Quote(url) != "" && Quote(url)[0] == if Safe(url[0]) then url[0] else '%'
    ensures Safe(url[0]) ==> Quote(url)[1..] == Quote(url[1..])
  {
  }

  lemma QuoteThree(url: string)
    requires Printable(url) && Encoded(url)
    ensures Quote(url) == url[..3] + Quote(url[3..])
  {
    var rest := url[3..];
    var two, three := [url[2]] + rest, [url[1]] + ([url[2]] + rest);
    assert url == [url[0]] + three;
    QuoteCons(url[0], three);
    QuoteCons(url[1], two);
    QuoteCons(url[2], rest);
    assert url[..3] + Quote(rest) == [url[0]] + ([url[1]] + ([url[2]] + Quote(rest)));
  }

  /** A hexadecimal digit in front stood there before. */
  lemma HexFront(url: string)
    requires Printable(url) && Quote(url) != "" && HexValue(Quote(url)[0]) >= 0
    ensures url != "" && url[0] == Quote(url)[0] && Quote(url)[1..] == Quote(url[1..])
  {
    QuoteFirst(url);
  }

  /** Encoding makes nothing look encoded that was not. */
  lemma QuoteFront(url: string)
    requires Printable(url) && url != "" && Safe(url[0]) && Encoded(Quote(url))
    ensures Encoded(url)
  {
    QuoteFirst(url);
    var one := Quote(url[1..]);
    assert one[0] == Quote(url)[1] && one[1] == Quote(url)[2];
    HexFront(url[1..]);
    var two := Quote(url[1..][1..]);
    assert two[0] == one[1];
    HexFront(url[1..][1..]);
  }

  /** Decoding undoes the encoding, and decodes what looked encoded before. */
  lemma {:induction false} DecodeQuote(url: string)
    requires Printable(url)
    ensures Decode(Quote(url)) == Decode(url)
    decreases |url|
  {
    if url != "" {
      if !Safe(url[0]) {
        DecodeQuote(url[1..]);
        UnsafeBack(url);
      } else if Encoded(url) {
        QuoteThree(url);
        DecodeQuote(url[3..]);
        EncodedBack(url, Quote(url), Quote(url[3..]));
      } else {
        DecodeQuote(url[1..]);
        PlainBack(url);
      }
    }
  }

  /** An encoded character is decoded again. */
  lemma UnsafeBack(url: string)
    requires Printable(url) && url != "" && !Safe(url[0]) && Decode(Quote(url[1..])) == Decode(url[1..])
    ensures Decode(Quote(url)) == Decode(url)
  {
    UnsafeFront(url);
    EscapedDecodes(url[0], Quote(url[1..]));
    assert Quote(url) == Escaped(url[0]) + Quote(url[1..]);
  }

  lemma EscapedDecodes(c: char, rest: string)
    requires ' ' <= c <= '~'
    ensures Decode(Escaped(c) + rest) == [c] + Decode(rest)
  {
    var k := c as int;
    HexDigit(k / 16);
    HexDigit(k % 16);
    assert (Escaped(c) + rest)[3..] == rest && 16 * (k / 16) + k % 16 == k;
  }

  lemma EncodedBack(url: string, q: string, rest: string)
    requires Encoded(url) && q == url[..3] + rest && Decode(rest) == Decode(url[3..])
    ensures Decode(q) == Decode(url)
  {
    assert q[3..] == rest && q[1] == url[1] && q[2] == url[2];
  }

  lemma PlainBack(url: string)
    requires Printable(url) && url != "" && Safe(url[0]) && !Encoded(url) && Decode(Quote(url[1..])) == Decode(url[1..])
    ensures Decode(Quote(url)) == Decode(url)
  {
    QuoteFirst(url);
    if Encoded(Quote(url)) { QuoteFront(url); }
  }

  /** What a URL delivers, encoding left aside. */
  ghost function Served(url: string): string
  {
    Decode(PathPart(Strip(url)))
  }

  lemma RoutedIs(url: string)
    requires Printable(url)
    ensures Routed(url) == if Served(url) == "" || Served(url)[0] == '/' then None else Some(Served(url))
  {
    StripPrintable(url);
    PathOfQuote(Strip(url));
    DecodeQuote(PathPart(Strip(url)));
  }

  lemma {:induction false} PathLength(url: string)
    ensures |PathPart(url)| <= |url| && (|PathPart(url)| == |url| ==> PathPart(url) == url)
    ensures |PathPart(url)| == |url| <==> '?' !in url && '#' !in url
  {
    if url != "" {
      PathLength(url[1..]);
    }
  }

  lemma {:induction false} DecodeLength(url: string)
    ensures |Decode(url)| <= |url| && (|Decode(url)| == |url| ==> Decode(url) == url)
    ensures |Decode(url)| == |url| <==> !HasEncoded(url)
    decreases |url|
  {
    if url != "" {
      if Encoded(url) {
        DecodeLength(url[3..]);
        assert url[0..] == url;
      } else {
        DecodeLength(url[1..]);
        EncodedBehind(url);
      }
    }
  }

  lemma EncodedBehind(url: string)
    requires url != "" && !Encoded(url)
    ensures HasEncoded(url) <==> HasEncoded(url[1..])
  {
    if i :| 0 <= i < |url| && Encoded(url[i..]) {
      assert url[0..] == url && url[i..] == url[1..][i - 1..];
    }
    if i :| 0 <= i < |url[1..]| && Encoded(url[1..][i..]) {
      assert url[1..][i..] == url[i + 1..];
    }
  }

  /** A URL delivers itself exactly if nothing in it is stripped, cut off or decoded. */
  lemma ServedExact(url: string)
    requires Printable(url)
    ensures Served(url) == url <==> UrlPlain(url)
  {
    StripPrintable(url);
    PathLength(Strip(url));
    DecodeLength(PathPart(Strip(url)));
  }

  lemma {:induction false} StripCons(c: char, url: string)
    requires c != ' '
    ensures Strip([c] + url) == [c] + Strip(url)
    decreases |url|
  {
    var u := [c] + url;
    if url != "" && url[|url| - 1] == ' ' {
      assert u[|u| - 1] == ' ' && u[..|u| - 1] == [c] + url[..|url| - 1];
      StripCons(c, url[..|url| - 1]);
    }
  }

  /** An ordinary character in front is delivered, and changes nothing behind it. */
  lemma ServedCons(c: char, url: string)
    requires c !in " ?#%"
    ensures Served([c] + url) == [c] + Served(url) && (UrlPlain([c] + url) <==> UrlPlain(url))
  {
    StripCons(c, url);
    var p := PathPart(Strip(url));
    assert ([c] + Strip(url))[1..] == Strip(url) && ([c] + p)[1..] == p;
    assert ([c] + url)[1..] == url;
    EncodedBehind([c] + url);
  }

  /** A slash in front is carried over as two backslashes. */
  lemma SlashRelay(rest: string)
    requires Printable("/" + rest)
    ensures Relay("/" + rest) == Some("/" + Served(rest))
    ensures (Relayable("/" + rest) <==> UrlPlain(rest)) && Printable(rest)
  {
    var name, one := "/" + rest, "\\" + rest;
    forall i | 0 <= i < |rest|
      ensures ' ' <= rest[i] <= '~'
    {
      assert rest[i] == name[i + 1];
    }
    assert name[1..] == rest && Escape(name) == "\\" + one;
    ServedCons('\\', one);
    ServedCons('\\', rest);
    ServedCons('/', rest);
    assert ("\\" + ("\\" + Served(rest)))[2..] == Served(rest);
    RoutedIs(Escape(name));
  }

  /** Any other name is carried over as it is. */
  lemma OtherRelay(name: string)
    requires Printable(name) && name != "" && name[0] != '/'
    ensures Relay(name) == Some(name) <==> name[0] != '\\' && Served(name) == name
  {
    RoutedIs(name);
  }

  /** A name in printable ASCII arrives as it was sent if and only if it does not begin with a backslash or end with a
      space, and has neither '?' nor '#' nor a '%' in front of two hexadecimal digits. */
  lemma RelayExact(name: string)
    requires Printable(name) && name != ""
    ensures Relay(name) == Some(name) <==> Relayable(name)
  {
    if name[0] == '/' {
      var rest := name[1..];
      assert name == "/" + rest;
      SlashRelay(rest);
      ServedExact(rest);
      assert ("/" + Served(rest))[1..] == Served(rest);
    } else {
      OtherRelay(name);
      ServedExact(name);
    }
  }

  /** A name that arrives as another one. */
  lemma RelayCuts()
    ensures Relay("a?b") == Some("a") && !Relayable("a?b")
  {
    var u, v := "a?b", "?b";
    assert u[1..] == v && v[1..] == "b" && "b"[1..] == "";
    assert Quote(v) == v && Quote(u) == u;
    assert PathPart(v) == "" && PathPart(u) == "a";
  }

  /** The name that the i-th node is asked for, as far as it can be told. */
  ghost function Relayed(name: string, i: nat): Option<string>
  {
    if i == 0 then Some(name)
    else
      var before := Relayed(name, i - 1);
      if before.None? || !Printable(before.value) then None else Relay(before.value)
  }

  lemma RelaySame(name: string)
    requires Relayable(name)
    ensures Printable(name) && Relay(name) == Some(name)
  {
    RelayExact(name);
  }

  lemma {:induction false} RelayedSame(name: string, i: nat)
    requires Relayable(name)
    ensures Relayed(name, i) == Some(name)
  {
    var k := 0;
    while k < i
      invariant k <= i && Relayed(name, k) == Some(name)
    {
      k := k + 1;
      RelayedNext(name, k);
    }
  }

  lemma RelayedNext(name: string, i: nat)
    requires i > 0 && Relayed(name, i - 1) == Some(name) && Relayable(name)
    ensures Relayed(name, i) == Some(name)
  {
    RelaySame(name);
    assert Relayed(name, i) == Relay(name);
  }
}
