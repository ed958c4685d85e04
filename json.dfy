/**
 * The JSON text of an author list as Python's `json.dumps` writes it with its default settings
 * (`ensure_ascii=True`, separators `", "` and `": "`, keys in insertion order), and a decoder that
 * reads that text back, as `json.loads` does for it.
 */
module Json {
  import opened Wrappers
  import opened Text
  import opened Records

  // ---------------------------------------------------------------- encoding

  /** A lower-case hexadecimal digit, as `'{0:04x}'.format(n)` writes it. */
  function HexDigit(d: nat): (c: char)
    requires d < 16
    ensures '0' <= c <= '9' || 'a' <= c <= 'f'
  {
    if d < 10 then ('0' as int + d) as char else ('a' as int + d - 10) as char
  }

  /** The four hexadecimal digits of `n`, most significant first. */
  function Hex4(n: nat): (r: string)
    requires n < 0x1_0000
    ensures |r| == 4
  {
    [HexDigit(n / 0x10 / 0x10 / 0x10), HexDigit(n / 0x10 / 0x10 % 0x10), HexDigit(n / 0x10 % 0x10), HexDigit(n % 0x10)]
  }

  /** The escape `\uXXXX` of one UTF-16 code unit. */
  function UnicodeEscape(n: nat): (r: string)
    requires n < 0x1_0000
    ensures |r| == 6
  {
    "\\u" + Hex4(n)
  }

  /** One character of a string literal as `json.dumps` writes it with `ensure_ascii=True`. */
  function EscapeChar(c: char): (r: string)
    ensures 1 <= |r| && r[0] != '"'
  {
    var n := c as int;
    if c == '"' then "\\\""
    else if c == '\\' then "\\\\"
    else if n == 0x08 then "\\b"
    else if n == 0x0C then "\\f"
    else if c == '\n' then "\\n"
    else if c == '\r' then "\\r"
    else if c == '\t' then "\\t"
    else if 0x20 <= n <= 0x7E then [c]
    else if n < 0x1_0000 then UnicodeEscape(n)
    else
      // a character outside the Basic Multilingual Plane is written as a surrogate pair
      var v := n - 0x1_0000;
      UnicodeEscape(0xD800 + v / 0x400) + UnicodeEscape(0xDC00 + v % 0x400)
  }

  function EscapeString(s: string): string {
    if s == [] then [] else EscapeChar(s[0]) + EscapeString(s[1..])
  }

  /** A JSON string literal. */
  function EncodeString(s: string): string {
    "\"" + EscapeString(s) + "\""
  }

  const NameKey := "{\"name\": "
  const LinkKey := ", \"profile_link\": "

  /** `json.dumps({"name": a.name, "profile_link": a.profileLink})`. */
  function EncodeAuthor(a: Author): string {
    NameKey + EncodeString(a.name) + LinkKey + EncodeString(a.profileLink) + "}"
  }

  /** The authors after the first one, each preceded by the separator `", "`. */
  function EncodeRest(authors: seq<Author>): string {
    if authors == [] then [] else ", " + EncodeAuthor(authors[0]) + EncodeRest(authors[1..])
  }

  /** `json.dumps(authors)`. */
  function EncodeAuthors(authors: seq<Author>): string {
    if authors == [] then "[]" else "[" + EncodeAuthor(authors[0]) + EncodeRest(authors[1..]) + "]"
  }

  // ---------------------------------------------------------------- decoding

  /** The value of a hexadecimal digit of either case. */
  function HexValue(c: char): Option<nat> {
    if '0' <= c <= '9' then Some(c as int - '0' as int)
    else if 'a' <= c <= 'f' then Some(c as int - 'a' as int + 10)
    else if 'A' <= c <= 'F' then Some(c as int - 'A' as int + 10)
    else None
  }

  /** The number written by the four hexadecimal digits that start `s`. */
  function ParseHex4(s: string): (r: Option<nat>)
    ensures r.Some? ==> r.value < 0x1_0000
  {
    if |s| < 4 then None
    else match (HexValue(s[0]), HexValue(s[1]), HexValue(s[2]), HexValue(s[3]))
      case (Some(a), Some(b), Some(c), Some(d)) =>
        assert a < 16 && b < 16 && c < 16 && d < 16;
        Some(a * 0x1000 + b * 0x100 + c * 0x10 + d)
      case _ => None
  }

  /** The code unit of a `\uXXXX` escape at the start of `s`. */
  function ParseUnicodeEscape(s: string): (r: Option<nat>)
    ensures r.Some? ==> |s| >= 6 && r.value < 0x1_0000
  {
    if |s| >= 6 && s[0] == '\\' && s[1] == 'u' then ParseHex4(s[2..6]) else None
  }

  predicate IsHighSurrogate(n: int) { 0xD800 <= n <= 0xDBFF }
  predicate IsLowSurrogate(n: int) { 0xDC00 <= n <= 0xDFFF }

  /**
   * One character of a string literal at the start of `s` (which is not the closing quote), and what
   * follows it. Fails where `json.loads` raises: a raw control character, an unknown escape, a
   * truncated escape; and where it would yield an unpaired surrogate, which no `char` can hold.
   */
  function ParseChar(s: string): (r: Option<(char, string)>)
    ensures r.Some? ==> |r.value.1| < |s|
  {
    if s == [] then None
    else if s[0] != '\\' then
      if s[0] as int < 0x20 then None else Some((s[0], s[1..]))
    else if |s| < 2 then None
    else if s[1] == '"' then Some(('"', s[2..]))
    else if s[1] == '\\' then Some(('\\', s[2..]))
    else if s[1] == '/' then Some(('/', s[2..]))
    else if s[1] == 'b' then Some((0x08 as char, s[2..]))
    else if s[1] == 'f' then Some((0x0C as char, s[2..]))
    else if s[1] == 'n' then Some(('\n', s[2..]))
    else if s[1] == 'r' then Some(('\r', s[2..]))
    else if s[1] == 't' then Some(('\t', s[2..]))
    else match ParseUnicodeEscape(s)
      case None => None
      case Some(hi) =>
        if IsLowSurrogate(hi) then None
        else if !IsHighSurrogate(hi) then Some((hi as char, s[6..]))
        else match ParseUnicodeEscape(s[6..])
          case Some(lo) =>
            if IsLowSurrogate(lo) then
              Some(((0x1_0000 + (hi - 0xD800) * 0x400 + (lo - 0xDC00)) as char, s[12..]))
            else None
          case None => None
  }

  /** The characters of a string literal up to its closing quote, and what follows the quote. */
  function ParseStringBody(s: string): (r: Option<(string, string)>)
    ensures r.Some? ==> |r.value.1| < |s|
    decreases |s|
  {
    if s == [] then None
    else if s[0] == '"' then Some(([], s[1..]))
    else match ParseChar(s)
      case None => None
      case Some((c, rest)) =>
        match ParseStringBody(rest)
        case None => None
        case Some((cs, after)) => Some(([c] + cs, after))
  }

  /** A string literal at the start of `s`, and what follows it. */
  function ParseString(s: string): (r: Option<(string, string)>)
    ensures r.Some? ==> |r.value.1| < |s|
  {
    if s != [] && s[0] == '"' then ParseStringBody(s[1..]) else None
  }

  /** What follows `token` in `s`, if `s` starts with it. */
  function Skip(token: string, s: string): (r: Option<string>)
    ensures r.Some? ==> |token| <= |s| && r.value == s[|token|..]
  {
    if StartsWith(s, token) then Some(s[|token|..]) else None
  }

  /** An author object at the start of `s`, and what follows it. */
  function ParseAuthor(s: string): (r: Option<(Author, string)>)
    ensures r.Some? ==> |r.value.1| < |s|
  {
    match Skip(NameKey, s)
    case None => None
    case Some(s1) =>
      match ParseString(s1)
      case None => None
      case Some((name, s2)) =>
        match Skip(LinkKey, s2)
        case None => None
        case Some(s3) =>
          match ParseString(s3)
          case None => None
          case Some((link, s4)) =>
            match Skip("}", s4)
            case None => None
            case Some(s5) => Some((Author(name, link), s5))
  }

  /** The authors after the first one up to the closing bracket, and what follows it. */
  function ParseRest(s: string): (r: Option<(seq<Author>, string)>)
    decreases |s|
  {
    if StartsWith(s, "]") then Some(([], s[1..]))
    else match Skip(", ", s)
      case None => None
      case Some(s1) =>
        match ParseAuthor(s1)
        case None => None
        case Some((a, s2)) =>
          match ParseRest(s2)
          case None => None
          case Some((more, s3)) => Some(([a] + more, s3))
  }

  /** `json.loads(s)` for the text of an author list; `None` where it would raise or yield another shape. */
  function DecodeAuthors(s: string): Option<seq<Author>> {
    if s == "[]" then Some([])
    else match Skip("[", s)
      case None => None
      case Some(s1) =>
        match ParseAuthor(s1)
        case None => None
        case Some((a, s2)) =>
          match ParseRest(s2)
          case Some((more, s3)) => if s3 == [] then Some([a] + more) else None
          case None => None
  }

  // ---------------------------------------------------------------- round trip

  lemma HexDigitValue(d: nat)
    requires d < 16
    ensures HexValue(HexDigit(d)) == Some(d)
  {
  }

  lemma Hex4RoundTrip(n: nat)
    requires n < 0x1_0000
    ensures ParseHex4(Hex4(n)) == Some(n)
  {
    var q1 := n / 0x10;
    var q2 := q1 / 0x10;
    var a, b, c, d := q2 / 0x10, q2 % 0x10, q1 % 0x10, n % 0x10;
    assert n == ((a * 0x10 + b) * 0x10 + c) * 0x10 + d;
    HexDigitValue(a);
    HexDigitValue(b);
    HexDigitValue(c);
    HexDigitValue(d);
  }

  lemma UnicodeEscapeRoundTrip(n: nat, tail: string)
    requires n < 0x1_0000
    ensures ParseUnicodeEscape(UnicodeEscape(n) + tail) == Some(n)
    ensures (UnicodeEscape(n) + tail)[6..] == tail
  {
    var s := UnicodeEscape(n) + tail;
    assert s[2..6] == Hex4(n);
    Hex4RoundTrip(n);
  }

  lemma ShortEscapeRoundTrip(c: char, tail: string)
    requires var n := c as int; c == '"' || c == '\\' || n == 0x08 || n == 0x0C || c == '\n' || c == '\r' || c == '\t'
    ensures ParseChar(EscapeChar(c) + tail) == Some((c, tail))
  {
    var s := EscapeChar(c) + tail;
    assert |EscapeChar(c)| == 2 && s[2..] == tail;
  }

  lemma PlainRoundTrip(c: char, tail: string)
    requires c != '"' && c != '\\' && 0x20 <= c as int <= 0x7E
    ensures ParseChar(EscapeChar(c) + tail) == Some((c, tail))
  {
    var s := EscapeChar(c) + tail;
    assert EscapeChar(c) == [c];
    assert s[0] == c && s[1..] == tail;
  }

  lemma BmpRoundTrip(c: char, tail: string)
    requires 0x7E < c as int < 0x1_0000 || c as int < 0x20
    requires var n := c as int; n != 0x08 && n != 0x0C && c != '\n' && c != '\r' && c != '\t'
    ensures ParseChar(EscapeChar(c) + tail) == Some((c, tail))
  {
    var n := c as int;
    assert EscapeChar(c) == UnicodeEscape(n);
    UnicodeEscapeRoundTrip(n, tail);
    var s := UnicodeEscape(n) + tail;
    assert s[0] == '\\' && s[1] == 'u';
  }

  lemma AstralRoundTrip(c: char, tail: string)
    requires c as int >= 0x1_0000
    ensures ParseChar(EscapeChar(c) + tail) == Some((c, tail))
  {
    var n := c as int;
    var v := n - 0x1_0000;
    var hi, lo := 0xD800 + v / 0x400, 0xDC00 + v % 0x400;
    var s := UnicodeEscape(hi) + (UnicodeEscape(lo) + tail);
    assert EscapeChar(c) + tail == s;
    UnicodeEscapeRoundTrip(hi, UnicodeEscape(lo) + tail);
    UnicodeEscapeRoundTrip(lo, tail);
    assert s[0] == '\\' && s[1] == 'u';
    assert s[6..][6..] == s[12..];
    assert 0x1_0000 + (hi - 0xD800) * 0x400 + (lo - 0xDC00) == n;
  }

  /** The decoder reads back the one character the encoder wrote, and leaves what follows. */
  lemma EscapeCharRoundTrip(c: char, tail: string)
    ensures ParseChar(EscapeChar(c) + tail) == Some((c, tail))
  {
    var n := c as int;
    if c == '"' || c == '\\' || n == 0x08 || n == 0x0C || c == '\n' || c == '\r' || c == '\t' {
      ShortEscapeRoundTrip(c, tail);
    } else if 0x20 <= n <= 0x7E {
      PlainRoundTrip(c, tail);
    } else if n < 0x1_0000 {
      BmpRoundTrip(c, tail);
    } else {
      AstralRoundTrip(c, tail);
    }
  }

  lemma {:induction false} EscapeStringRoundTrip(x: string, tail: string)
    ensures ParseStringBody(EscapeString(x) + "\"" + tail) == Some((x, tail))
  {
    var s := EscapeString(x) + "\"" + tail;
    if x == [] {
      assert s == "\"" + tail;
      assert s[1..] == tail;
    } else {
      var rest := EscapeString(x[1..]) + "\"" + tail;
      assert s == EscapeChar(x[0]) + rest;
      EscapeCharRoundTrip(x[0], rest);
      EscapeStringRoundTrip(x[1..], tail);
      assert [x[0]] + x[1..] == x;
    }
  }

  /** A string literal written by `json.dumps` is read back by `json.loads` as the same string. */
  lemma {:induction false} StringRoundTrip(x: string, tail: string)
    ensures ParseString(EncodeString(x) + tail) == Some((x, tail))
  {
    var s := EncodeString(x) + tail;
    assert s[1..] == EscapeString(x) + "\"" + tail;
    EscapeStringRoundTrip(x, tail);
  }

  lemma SkipPrefix(token: string, tail: string)
    ensures Skip(token, token + tail) == Some(tail)
  {
    assert (token + tail)[..|token|] == token;
    assert (token + tail)[|token|..] == tail;
  }

  /** `ParseAuthor` reads the two keys, the two strings and the closing brace in turn. */
  lemma ParseAuthorSteps(t1: string, name: string, t2: string, t3: string, link: string, t4: string, tail: string)
    requires ParseString(t1) == Some((name, t2))
    requires Skip(LinkKey, t2) == Some(t3)
    requires ParseString(t3) == Some((link, t4))
    requires Skip("}", t4) == Some(tail)
    ensures ParseAuthor(NameKey + t1) == Some((Author(name, link), tail))
  {
    SkipPrefix(NameKey, t1);
  }

  lemma Regroup6(p1: string, p2: string, p3: string, p4: string, p5: string, tail: string)
    ensures p1 + p2 + p3 + p4 + p5 + tail == p1 + (p2 + (p3 + (p4 + (p5 + tail))))
  {
  }

  lemma {:induction false} AuthorRoundTrip(a: Author, tail: string)
    ensures ParseAuthor(EncodeAuthor(a) + tail) == Some((a, tail))
  {
    var t4 := "}" + tail;
    var t3 := EncodeString(a.profileLink) + t4;
    var t2 := LinkKey + t3;
    var t1 := EncodeString(a.name) + t2;
    Regroup6(NameKey, EncodeString(a.name), LinkKey, EncodeString(a.profileLink), "}", tail);
    StringRoundTrip(a.name, t2);
    SkipPrefix(LinkKey, t3);
    StringRoundTrip(a.profileLink, t4);
    SkipPrefix("}", tail);
    ParseAuthorSteps(t1, a.name, t2, t3, a.profileLink, t4, tail);
  }

  lemma Regroup(p: string, x: string, y: string, z: string, w: string)
    ensures p + x + y + z + w == p + (x + (y + z + w))
  {
  }

  /** One step of `ParseRest`: a separator, an author, and the rest of the list. */
  lemma ParseRestStep(t: string, a: Author, more: string, authors: seq<Author>, tail: string)
    requires ParseAuthor(t) == Some((a, more))
    requires ParseRest(more) == Some((authors, tail))
    ensures ParseRest(", " + t) == Some(([a] + authors, tail))
  {
    var s := ", " + t;
    assert !StartsWith(s, "]") by { assert s[..1][0] == ','; }
    SkipPrefix(", ", t);
  }

  lemma EncodeRestCons(authors: seq<Author>, tail: string)
    requires authors != []
    ensures EncodeRest(authors) + "]" + tail
         == ", " + (EncodeAuthor(authors[0]) + (EncodeRest(authors[1..]) + "]" + tail))
  {
    Regroup(", ", EncodeAuthor(authors[0]), EncodeRest(authors[1..]), "]", tail);
  }

  lemma RestRoundTripNil(tail: string)
    ensures ParseRest(EncodeRest([]) + "]" + tail) == Some(([], tail))
  {
    var s := EncodeRest([]) + "]" + tail;
    assert s == "]" + tail;
    assert s[1..] == tail;
  }

  lemma RestRoundTripCons(authors: seq<Author>, tail: string)
    requires authors != []
    requires ParseRest(EncodeRest(authors[1..]) + "]" + tail) == Some((authors[1..], tail))
    ensures ParseRest(EncodeRest(authors) + "]" + tail) == Some((authors, tail))
  {
    var more := EncodeRest(authors[1..]) + "]" + tail;
    EncodeRestCons(authors, tail);
    AuthorRoundTrip(authors[0], more);
    ParseRestStep(EncodeAuthor(authors[0]) + more, authors[0], more, authors[1..], tail);
    assert [authors[0]] + authors[1..] == authors;
  }

  lemma {:induction false} RestRoundTrip(authors: seq<Author>, tail: string)
    ensures ParseRest(EncodeRest(authors) + "]" + tail) == Some((authors, tail))
  {
    if authors == [] {
      RestRoundTripNil(tail);
    } else {
      RestRoundTrip(authors[1..], tail);
      RestRoundTripCons(authors, tail);
    }
  }

  /** The decoder's reading of a non-empty list: its first author, then the rest. */
  lemma DecodeStep(s: string, a: Author, more: string, authors: seq<Author>)
    requires s != "[]" && Skip("[", s).Some?
    requires ParseAuthor(Skip("[", s).value) == Some((a, more))
    requires ParseRest(more) == Some((authors, []))
    ensures DecodeAuthors(s) == Some([a] + authors)
  {
  }

  /** `json.loads(json.dumps(authors)) == authors`. */
  lemma {:induction false} AuthorsRoundTrip(authors: seq<Author>)
    ensures DecodeAuthors(EncodeAuthors(authors)) == Some(authors)
  {
    if authors != [] {
      var s := EncodeAuthors(authors);
      var more := EncodeRest(authors[1..]) + "]";
      var t := EncodeAuthor(authors[0]) + more;
      Regroup("[", EncodeAuthor(authors[0]), EncodeRest(authors[1..]), "]", []);
      assert s + [] == s;
      assert s != "[]" by { assert s[1] == '{'; }
      SkipPrefix("[", t);
      AuthorRoundTrip(authors[0], more);
      RestRoundTrip(authors[1..], []);
      assert more + [] == more;
      DecodeStep(s, authors[0], more, authors[1..]);
      assert [authors[0]] + authors[1..] == authors;
    }
  }

  // ---------------------------------------------------------------- ASCII output

  /** Printable ASCII, the only characters `ensure_ascii=True` lets through. */
  predicate IsPrintableAscii(s: string) {
    forall i :: 0 <= i < |s| ==> 0x20 <= s[i] as int <= 0x7E
  }

  lemma AsciiConcat(a: string, b: string)
    requires IsPrintableAscii(a) && IsPrintableAscii(b)
    ensures IsPrintableAscii(a + b)
  {
    forall i | 0 <= i < |a + b| ensures 0x20 <= (a + b)[i] as int <= 0x7E {
      if i >= |a| { assert (a + b)[i] == b[i - |a|]; }
    }
  }

  lemma {:induction false} EscapeStringAscii(x: string)
    ensures IsPrintableAscii(EscapeString(x))
  {
    if x != [] {
      EscapeStringAscii(x[1..]);
      var e := EscapeChar(x[0]);
      assert IsPrintableAscii(e);
      AsciiConcat(e, EscapeString(x[1..]));
    }
  }

  lemma {:induction false} StringAscii(x: string)
    ensures IsPrintableAscii(EncodeString(x))
  {
    EscapeStringAscii(x);
    AsciiConcat("\"", EscapeString(x));
    AsciiConcat("\"" + EscapeString(x), "\"");
  }

  lemma {:induction false} AuthorAscii(a: Author)
    ensures IsPrintableAscii(EncodeAuthor(a))
  {
    StringAscii(a.name);
    StringAscii(a.profileLink);
    AsciiConcat(NameKey, EncodeString(a.name));
    AsciiConcat(NameKey + EncodeString(a.name), LinkKey);
    AsciiConcat(NameKey + EncodeString(a.name) + LinkKey, EncodeString(a.profileLink));
    AsciiConcat(NameKey + EncodeString(a.name) + LinkKey + EncodeString(a.profileLink), "}");
  }

  lemma {:induction false} RestAscii(authors: seq<Author>)
    ensures IsPrintableAscii(EncodeRest(authors))
  {
    if authors != [] {
      AuthorAscii(authors[0]);
      RestAscii(authors[1..]);
      AsciiConcat(", ", EncodeAuthor(authors[0]));
      AsciiConcat(", " + EncodeAuthor(authors[0]), EncodeRest(authors[1..]));
    }
  }

  /** Whatever the names and links hold, the stored text of an author list is printable ASCII. */
  lemma {:induction false} AuthorsAscii(authors: seq<Author>)
    ensures IsPrintableAscii(EncodeAuthors(authors))
  {
    if authors != [] {
      AuthorAscii(authors[0]);
      RestAscii(authors[1..]);
      AsciiConcat("[", EncodeAuthor(authors[0]));
      AsciiConcat("[" + EncodeAuthor(authors[0]), EncodeRest(authors[1..]));
      AsciiConcat("[" + EncodeAuthor(authors[0]) + EncodeRest(authors[1..]), "]");
    }
  }
}
