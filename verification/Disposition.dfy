/** The Content-Disposition header of a download and the two clients that read a filename from
    it. A file name is the sequence of its UTF-8 bytes, one char each. */
module Disposition {
  import opened Basics

  type Octet = c: char | c as int < 256
  type Ascii = c: char | c as int < 128

  // ---- UTF-8 (RFC 3629, section 4) --------------------------------------------------------

  predicate Continuation(c: char) {
    0x80 <= c as int <= 0xBF
  }

  /** Length of the well-formed sequence at the front of `s`, or 0. */
  function RuneLength(s: string): (n: nat)
    requires s != ""
    ensures n <= |s|
    ensures n == 1 <==> s[0] as int < 0x80
    ensures forall i :: 0 <= i < n && n > 1 ==> s[i] as int >= 0x80
  {
    var a := s[0] as int;
    if a < 0x80 then 1
    else if 0xC2 <= a <= 0xDF && |s| >= 2 && Continuation(s[1]) then 2
    else if 0xE0 <= a <= 0xEF && |s| >= 3 && Continuation(s[1]) && Continuation(s[2])
            && (a == 0xE0 ==> s[1] as int >= 0xA0) && (a == 0xED ==> s[1] as int <= 0x9F) then 3
    else if 0xF0 <= a <= 0xF4 && |s| >= 4 && Continuation(s[1]) && Continuation(s[2]) && Continuation(s[3])
            && (a == 0xF0 ==> s[1] as int >= 0x90) && (a == 0xF4 ==> s[1] as int <= 0x8F) then 4
    else 0
  }

  predicate ValidUtf8(s: string) {
    s == "" || (RuneLength(s) > 0 && ValidUtf8(s[RuneLength(s)..]))
  }

  function Utf8(c: char): string {
    var n := c as int;
    if n < 0x80 then [c]
    else if n < 0x800 then [(0xC0 + n / 64) as char, (0x80 + n % 64) as char]
    else if n < 0x10000 then [(0xE0 + n / 4096) as char, (0x80 + n / 64 % 64) as char, (0x80 + n % 64) as char]
    else [(0xF0 + n / 262144) as char, (0x80 + n / 4096 % 64) as char, (0x80 + n / 64 % 64) as char,
          (0x80 + n % 64) as char]
  }

  // ---- The server's header ----------------------------------------------------------------

  predicate IsAscii(name: string) {
    forall i :: 0 <= i < |name| ==> name[i] as int < 128
  }

  /** Every rune beyond ASCII, or byte that starts none, becomes one underscore. */
  function AsciiFallback(name: seq<Octet>): seq<Ascii> {
    if name == "" then ""
    else if name[0] as int < 128 then [name[0]] + AsciiFallback(name[1..])
    else "_" + AsciiFallback(name[if RuneLength(name) == 0 then 1 else RuneLength(name)..])
  }

  function Fallback(name: seq<Octet>): seq<Ascii> {
    if IsAscii(name) then name else AsciiFallback(name)
  }

  function HexDigit(n: nat, a: char): char
    requires n < 16 && (a == 'a' || a == 'A')
  {
    if n < 10 then ('0' as int + n) as char else (a as int + n - 10) as char
  }

  /** One ASCII character as fmt's %q prints it. */
  function QuotedChar(c: Ascii): string {
    var n := c as int;
    if c == '"' || c == '\\' then ['\\', c]
    else if ' ' <= c <= '~' then [c]
    else if n == 7 then "\\a" else if n == 8 then "\\b" else if n == 9 then "\\t" else if n == 10 then "\\n"
    else if n == 11 then "\\v" else if n == 12 then "\\f" else if n == 13 then "\\r"
    else "\\x" + [HexDigit(n / 16, 'a'), HexDigit(n % 16, 'a')]
  }

  /** What %q puts between its quotes. */
  function Quoted(s: seq<Ascii>): string {
    if s == "" then "" else QuotedChar(s[0]) + Quoted(s[1..])
  }

  predicate Unreserved(c: char) {
    'a' <= c <= 'z' || 'A' <= c <= 'Z' || '0' <= c <= '9' || c in "-_.~"
  }

  /** url.QueryEscape of one byte. */
  function EscapedChar(c: Octet): string {
    if Unreserved(c) then [c]
    else if c == ' ' then "+"
    else ['%', HexDigit(c as int / 16, 'A'), HexDigit(c as int % 16, 'A')]
  }

  function QueryEscape(s: seq<Octet>): string {
    if s == "" then "" else EscapedChar(s[0]) + QueryEscape(s[1..])
  }

  /** strings.ReplaceAll(s, "+", "%20"). */
  function PlusToSpace(s: string): string {
    if s == "" then "" else (if s[0] == '+' then "%20" else [s[0]]) + PlusToSpace(s[1..])
  }

  function Encoded(name: seq<Octet>): string {
    PlusToSpace(QueryEscape(name))
  }

  const LEAD := "attachment; filename="

  const MARKER := "filename*=UTF-8''"

  /** fmt's %q. */
  function Literal(s: seq<Ascii>): string {
    ['"'] + Quoted(s) + ['"']
  }

  /** contentDispositionAttachment. */
  function Header(name: seq<Octet>): string {
    LEAD + Literal(Fallback(name)) + "; " + MARKER + Encoded(name)
  }

  // ---- Percent decoding (RFC 3986, section 2.1) -------------------------------------------

  function HexValue(c: char): (v: int)
    ensures -1 <= v < 16
  {
    if '0' <= c <= '9' then c as int - '0' as int
    else if 'a' <= c <= 'f' then c as int - 'a' as int + 10
    else if 'A' <= c <= 'F' then c as int - 'A' as int + 10
    else -1
  }

  function PercentDecode(s: string): Option<string> {
    if s == "" then Some("")
    else if s[0] == '%' then
      if |s| < 3 || HexValue(s[1]) < 0 || HexValue(s[2]) < 0 then None
      else
        match PercentDecode(s[3..])
        case None => None
        case Some(rest) => Some([(16 * HexValue(s[1]) + HexValue(s[2])) as char] + rest)
    else
      match PercentDecode(s[1..])
      case None => None
      case Some(rest) => Some(Utf8(s[0]) + rest)
  }

  /** decodeURIComponent and removingPercentEncoding: no result for a bad escape or for bytes
      that are not UTF-8. */
  function Decoded(s: string): Option<string> {
    match PercentDecode(s)
    case None => None
    case Some(bytes) => if ValidUtf8(bytes) then Some(bytes) else None
  }

  lemma {:induction false} EncodedCons(c: Octet, s: seq<Octet>)
    ensures Encoded([c] + s) ==
            (if Unreserved(c) then [c] else ['%', HexDigit(c as int / 16, 'A'), HexDigit(c as int % 16, 'A')])
                + Encoded(s)
  {
    assert ([c] + s)[1..] == s;
    var e, t := EscapedChar(c), QueryEscape(s);
    assert QueryEscape([c] + s) == e + t;
    PlusToSpaceAppend(e, t);
    if c != ' ' {
      NoPlus(e);
    }
  }

  lemma {:induction false} NoPlus(s: string)
    requires '+' !in s
    ensures PlusToSpace(s) == s
  {
    if s != "" {
      NoPlus(s[1..]);
    }
  }

  lemma {:induction false} PlusToSpaceAppend(s: string, t: string)
    ensures PlusToSpace(s + t) == PlusToSpace(s) + PlusToSpace(t)
  {
    if s == "" {
      assert s + t == t;
    } else {
      assert (s + t)[1..] == s[1..] + t;
      PlusToSpaceAppend(s[1..], t);
    }
  }

  /** The encoded name decodes to the name's bytes. */
  lemma {:induction false} EncodedDecodes(name: seq<Octet>)
    ensures PercentDecode(Encoded(name)) == Some(name)
    ensures forall i :: 0 <= i < |Encoded(name)| ==> Encoded(name)[i] == '%' || Unreserved(Encoded(name)[i])
    ensures name != "" ==> Encoded(name) != ""
  {
    if name != "" {
      var c, rest := name[0], name[1..];
      EncodedDecodes(rest);
      EncodedCons(c, rest);
      assert [c] + rest == name;
      EscapeDecodes(c, Encoded(rest), rest);
    }
  }

  lemma EscapeDecodes(c: Octet, t: string, rest: string)
    requires PercentDecode(t) == Some(rest)
    requires forall i :: 0 <= i < |t| ==> t[i] == '%' || Unreserved(t[i])
    ensures var e := (if Unreserved(c) then [c]
                      else ['%', HexDigit(c as int / 16, 'A'), HexDigit(c as int % 16, 'A')]) + t;
            && PercentDecode(e) == Some([c] + rest)
            && (forall i :: 0 <= i < |e| ==> e[i] == '%' || Unreserved(e[i]))
  {
    if Unreserved(c) {
      assert ([c] + t)[1..] == t;
    } else {
      var hi, lo := HexDigit(c as int / 16, 'A'), HexDigit(c as int % 16, 'A');
      assert (['%', hi, lo] + t)[3..] == t;
      assert HexValue(hi) == c as int / 16 && HexValue(lo) == c as int % 16;
    }
  }

  // ---- The web client ---------------------------------------------------------------------

  function Lower(c: char): char {
    if 'A' <= c <= 'Z' then (c as int + 32) as char else c
  }

  /** The first `n` characters of the marker stand at `i`, in either case. */
  predicate LooksLike(h: string, i: nat, n: nat)
    requires n <= |MARKER| && i + n <= |h|
    decreases n, h
  {
    n == 0 || (LooksLike(h, i, n - 1) && Lower(h[i + n - 1]) == Lower(MARKER[n - 1]))
  }

  predicate MarkerAt(h: string, i: nat) {
    i + |MARKER| <= |h| && LooksLike(h, i, |MARKER|)
  }

  /** /filename\*=UTF-8''([^;]+)/i matches at `i`: a marker with something after it. */
  predicate MatchAt(h: string, i: nat) {
    MarkerAt(h, i) && i + |MARKER| < |h| && h[i + |MARKER|] != ';'
  }

  /** The first match from `i` on. */
  function FindMarker(h: string, i: nat): (r: Option<nat>)
    requires i <= |h|
    ensures r.Some? ==> i <= r.value && MatchAt(h, r.value)
    decreases |h| - i
  {
    if i == |h| then None
    else if MatchAt(h, i) then Some(i)
    else FindMarker(h, i + 1)
  }

  /** [^;]* */
  function UpToSemicolon(s: string): (r: string)
    ensures |r| <= |s| && r == s[..|r|] && ';' !in r
    ensures |r| < |s| ==> s[|r|] == ';'
  {
    if s == "" || s[0] == ';' then "" else [s[0]] + UpToSemicolon(s[1..])
  }

  /** Null when there is no match; Malformed when decodeURIComponent throws. */
  datatype Parsed = Filename(name: string) | Null | Malformed

  const PLAIN := "filename="

  /** [^";]* */
  function UpToQuote(s: string): string {
    if s == "" || s[0] == ';' || s[0] == '"' then "" else [s[0]] + UpToQuote(s[1..])
  }

  /** /filename="?([^";]+)"?/i from `i` on. */
  function PlainFilename(h: string, i: nat): Parsed
    requires i <= |h|
    decreases |h| - i
  {
    if i + |PLAIN| >= |h| then Null
    else
      var at := if h[i + |PLAIN|] == '"' then i + |PLAIN| + 1 else i + |PLAIN|;
      if (forall j :: 0 <= j < |PLAIN| ==> Lower(h[i + j]) == PLAIN[j]) && UpToQuote(h[at..]) != ""
      then Filename(UpToQuote(h[at..]))
      else PlainFilename(h, i + 1)
  }

  /** decodeURIComponent of what the match at `i` captured. */
  function Captured(h: string, i: nat): Parsed
    requires MatchAt(h, i)
  {
    match Decoded(UpToSemicolon(h[i + |MARKER|..]))
    case Some(name) => Filename(name)
    case None => Malformed
  }

  function ParseWeb(h: string): Parsed {
    match FindMarker(h, 0)
    case Some(i) => Captured(h, i)
    case None => PlainFilename(h, 0)
  }

  // ---- The desktop client -----------------------------------------------------------------

  /** An empty piece is left out. */
  function Kept(p: string): seq<string> {
    if p == "" then [] else [p]
  }

  /** The pieces of `p + s`, when `p` is the piece being read. */
  function Split(s: string, p: string): seq<string> {
    if s == "" then Kept(p)
    else if s[0] == ';' then Kept(p) + Split(s[1..], "")
    else Split(s[1..], p + [s[0]])
  }

  /** header.split(separator: ";"). */
  function Pieces(s: string): seq<string> {
    Split(s, "")
  }

  /** The characters of CharacterSet.whitespaces that a header byte can be. */
  predicate Blank(c: char) {
    c == ' ' || c == '\t' || c == '\U{a0}'
  }

  function TrimLeft(s: string): string {
    if s != "" && Blank(s[0]) then TrimLeft(s[1..]) else s
  }

  function TrimRight(s: string): string {
    if s != "" && Blank(s[|s| - 1]) then TrimRight(s[..|s| - 1]) else s
  }

  function Trim(s: string): string {
    TrimRight(TrimLeft(s))
  }

  const EXTENDED := "filename*="

  const CHARSET := "UTF-8''"

  /** What a filename* part says, if it is one and decodes. */
  function ExtendedValue(part: string): Option<string> {
    if !(EXTENDED <= part) then None
    else
      var value := part[|EXTENDED|..];
      Decoded(if CHARSET <= value then value[|CHARSET|..] else value)
  }

  function PlainValue(part: string): Option<string> {
    if !(PLAIN <= part) then None
    else
      var value := part[|PLAIN|..];
      Some(if |value| >= 2 && value[0] == '"' && value[|value| - 1] == '"' then value[1..|value| - 1] else value)
  }

  /** The first filename* part that decodes. */
  function FirstExtended(pieces: seq<string>): Option<string> {
    if pieces == [] then None
    else if ExtendedValue(Trim(pieces[0])).Some? then ExtendedValue(Trim(pieces[0]))
    else FirstExtended(pieces[1..])
  }

  function FirstPlain(pieces: seq<string>): Option<string> {
    if pieces == [] then None
    else if PlainValue(Trim(pieces[0])).Some? then PlainValue(Trim(pieces[0]))
    else FirstPlain(pieces[1..])
  }

  function DesktopFilename(header: string): Option<string> {
    var pieces := Pieces(header);
    if FirstExtended(pieces).Some? then FirstExtended(pieces) else FirstPlain(pieces)
  }

  /** parseFilename of the desktop client. */
  method ParseDesktop(header: string) returns (name: Option<string>)
    ensures name == DesktopFilename(header)
  {
    var pieces := Pieces(header);
    for i := 0 to |pieces|
      invariant FirstExtended(pieces) == FirstExtended(pieces[i..])
    {
      var part := Trim(pieces[i]);
      if EXTENDED <= part {
        var value := part[|EXTENDED|..];
        if CHARSET <= value {
          value := value[|CHARSET|..];
        }
        var decoded := Decoded(value);
        if decoded.Some? {
          return decoded;
        }
      }
    }
    for i := 0 to |pieces|
      invariant FirstPlain(pieces) == FirstPlain(pieces[i..])
    {
      var part := Trim(pieces[i]);
      if PLAIN <= part {
        return PlainValue(part);
      }
    }
    return None;
  }

  /** asciiFallback's loop. */
  method BuildFallback(name: seq<Octet>) returns (b: seq<Ascii>)
    ensures b == AsciiFallback(name)
  {
    b := "";
    var i := 0;
    while i < |name|
      invariant i <= |name| && AsciiFallback(name) == b + AsciiFallback(name[i..])
    {
      var n: nat := 1;
      var c: Ascii := '_';
      if name[i] as int < 128 {
        c := name[i];
      } else if RuneLength(name[i..]) > 0 {
        n := RuneLength(name[i..]);
      }
      FallbackStep(name, i, b, c, n);
      b, i := b + [c], i + n;
    }
  }

  lemma FallbackStep(name: seq<Octet>, i: nat, b: seq<Ascii>, c: Ascii, n: nat)
    requires i < |name| && n == if RuneLength(name[i..]) == 0 then 1 else RuneLength(name[i..])
    requires c == if name[i] as int < 128 then name[i] else '_'
    ensures i + n <= |name| && b + AsciiFallback(name[i..]) == b + [c] + AsciiFallback(name[i + n..])
  {
    assert name[i..][n..] == name[i + n..];
    assert AsciiFallback(name[i..]) == [c] + AsciiFallback(name[i + n..]);
  }
}
