/** The parts of the Content-Disposition header, spelled out: what quoting, escaping and the
    ASCII fallback do to each character, which patterns mislead the web client, and what both
    clients make of a header without an extended parameter. */
module HeaderParts {
  import opened Basics
  import opened Disposition
  import opened FilenameRoundTrip
  import opened DesktopRoundTrip

  const UPPER_HEX := "0123456789ABCDEF"
  const LOWER_HEX := "0123456789abcdef"

  lemma HexDigits(n: nat)
    requires n < 16
    ensures HexDigit(n, 'A') == UPPER_HEX[n] && HexDigit(n, 'a') == LOWER_HEX[n]
  {
  }

  /** Every byte of the name is encoded by itself: unreserved characters of section 2.3 of RFC
      3986 stand for themselves, all others become a percent sign and two upper-case digits. */
  lemma EncodedByte(c: Octet, rest: seq<Octet>)
    ensures var n := c as int;
            Encoded([c] + rest)
            == (if 'a' <= c <= 'z' || 'A' <= c <= 'Z' || '0' <= c <= '9' || c in "-_.~" then [c]
                else ['%', UPPER_HEX[n / 16], UPPER_HEX[n % 16]])
               + Encoded(rest)
    ensures Encoded([]) == ""
  {
    EncodedCons(c, rest);
    HexDigits(c as int / 16);
    HexDigits(c as int % 16);
  }

  // ---- Quoting ----------------------------------------------------------------------------

  /** The character that a one-letter escape stands for. */
  function Escape(c: char): Option<char> {
    match c
    case '"' => Some('"')
    case '\\' => Some('\\')
    case 'a' => Some(7 as char)
    case 'b' => Some(8 as char)
    case 't' => Some(9 as char)
    case 'n' => Some(10 as char)
    case 'v' => Some(11 as char)
    case 'f' => Some(12 as char)
    case 'r' => Some(13 as char)
    case _ => None
  }

  /** What a quoted text stands for; None if it is no well-formed text between quotes. */
  function Unquote(s: string): Option<string> {
    if s == "" then Some("")
    else if s[0] == '"' then None
    else if s[0] != '\\' then Prepend(s[0], Unquote(s[1..]))
    else if |s| >= 4 && s[1] == 'x' && HexValue(s[2]) >= 0 && HexValue(s[3]) >= 0 then
      Prepend((16 * HexValue(s[2]) + HexValue(s[3])) as char, Unquote(s[4..]))
    else if |s| >= 2 && Escape(s[1]).Some? then Prepend(Escape(s[1]).value, Unquote(s[2..]))
    else None
  }

  function Prepend(c: char, rest: Option<string>): Option<string> {
    if rest.Some? then Some([c] + rest.value) else None
  }

  lemma QuotedCharUnquotes(c: Ascii, rest: string)
    ensures Unquote(QuotedChar(c) + rest) == Prepend(c, Unquote(rest))
  {
    var q := QuotedChar(c);
    var s := q + rest;
    assert s[..|q|] == q && s[|q|..] == rest;
    assert s[0] == q[0];
    if |q| == 1 {
      assert s[1..] == rest;
    } else if |q| == 2 {
      assert s[1] == q[1] && s[2..] == rest;
    } else {
      HexBack(c as int / 16);
      HexBack(c as int % 16);
      assert s[1] == q[1] && s[2] == q[2] && s[3] == q[3] && s[4..] == rest;
    }
  }

  lemma HexBack(n: nat)
    requires n < 16
    ensures HexValue(HexDigit(n, 'a')) == n
  {
  }

  /** Quoting loses nothing: the text between the quotes reads back as what was quoted. */
  lemma {:induction false} QuotedUnquotes(s: seq<Ascii>)
    ensures Unquote(Quoted(s)) == Some(s)
  {
    if s != "" {
      QuotedUnquotes(s[1..]);
      QuotedCharUnquotes(s[0], Quoted(s[1..]));
      assert [s[0]] + s[1..] == s;
    }
  }

  // ---- The fallback -----------------------------------------------------------------------

  /** A scalar value's UTF-8 form is one rune, whatever follows it. */
  lemma ScalarIsRune(c: char, rest: string)
    ensures RuneLength(Utf8(c) + rest) == |Utf8(c)|
  {
    var n, u, s := c as int, Utf8(c), Utf8(c) + rest;
    assert s[..|u|] == u;
    assert s[0] == u[0];
    assert |u| > 1 ==> s[1] == u[1];
    assert |u| > 2 ==> s[2] == u[2];
    assert |u| > 3 ==> s[3] == u[3];
  }

  lemma Digits(x: nat, y: nat)
    requires y < 64
    ensures (64 * x + y) / 64 == x && (64 * x + y) % 64 == y
  {
  }

  lemma ThreeDigits(x: nat, y: nat, z: nat)
    requires y < 64 && z < 64
    ensures var n := 64 * (64 * x + y) + z; n / 4096 == x && n / 64 % 64 == y && n % 64 == z
  {
    Digits(64 * x + y, z);
    Digits(x, y);
    var n := 64 * (64 * x + y) + z;
    assert n == 4096 * x + (64 * y + z) && 64 * y + z < 4096;
  }

  lemma FourDigits(w: nat, x: nat, y: nat, z: nat)
    requires x < 64 && y < 64 && z < 64
    ensures var n := 64 * (64 * (64 * w + x) + y) + z;
            n / 262144 == w && n / 4096 % 64 == x && n / 64 % 64 == y && n % 64 == z
  {
    ThreeDigits(64 * w + x, y, z);
    Digits(w, x);
    var n := 64 * (64 * (64 * w + x) + y) + z;
    assert n == 262144 * w + (4096 * x + 64 * y + z) && 4096 * x + 64 * y + z < 262144;
  }

  lemma TwoByteRune(s: seq<Octet>) returns (c: char)
    requires s != "" && RuneLength(s) == 2
    ensures s[..2] == Utf8(c)
  {
    var x, y := s[0] as int - 0xC0, s[1] as int - 0x80;
    Digits(x, y);
    c := (64 * x + y) as char;
  }

  lemma ThreeByteRune(s: seq<Octet>) returns (c: char)
    requires s != "" && RuneLength(s) == 3
    ensures s[..3] == Utf8(c)
  {
    var x, y, z := s[0] as int - 0xE0, s[1] as int - 0x80, s[2] as int - 0x80;
    ThreeDigits(x, y, z);
    c := (64 * (64 * x + y) + z) as char;
  }

  lemma FourByteRune(s: seq<Octet>) returns (c: char)
    requires s != "" && RuneLength(s) == 4
    ensures s[..4] == Utf8(c)
  {
    var w, x, y, z := s[0] as int - 0xF0, s[1] as int - 0x80, s[2] as int - 0x80, s[3] as int - 0x80;
    FourDigits(w, x, y, z);
    c := (64 * (64 * (64 * w + x) + y) + z) as char;
  }

  /** And nothing else counts as a rune: what RuneLength accepts is the form of a scalar value. */
  lemma RuneIsScalar(s: seq<Octet>) returns (c: char)
    requires s != "" && RuneLength(s) > 0
    ensures s[..RuneLength(s)] == Utf8(c)
  {
    var n := RuneLength(s);
    if n == 1 {
      c := s[0];
    } else if n == 2 {
      c := TwoByteRune(s);
    } else if n == 3 {
      c := ThreeByteRune(s);
    } else {
      c := FourByteRune(s);
    }
  }

  /** A rune of the fallback: the UTF-8 form of a scalar value. */
  function Runes(text: string): string {
    if text == "" then "" else Utf8(text[0]) + Runes(text[1..])
  }

  /** The fallback of a text keeps its ASCII characters and has one underscore for each other. */
  lemma {:induction false} FallbackOfText(text: string, name: seq<Octet>)
    requires name == Runes(text)
    ensures |AsciiFallback(name)| == |text|
    ensures forall i :: 0 <= i < |text| ==>
              AsciiFallback(name)[i] == if text[i] as int < 128 then text[i] else '_'
  {
    if text != "" {
      var u, rest := Utf8(text[0]), Runes(text[1..]);
      ScalarIsRune(text[0], rest);
      assert name[|u|..] == rest;
      FallbackOfText(text[1..], name[|u|..]);
      FallbackFirst(name, text[0], name[|u|..]);
    }
  }

  lemma FallbackFirst(name: seq<Octet>, c: char, rest: seq<Octet>)
    requires name == Utf8(c) + rest && RuneLength(name) == |Utf8(c)| && rest == name[|Utf8(c)|..]
    ensures AsciiFallback(name) == [if c as int < 128 then c else '_'] + AsciiFallback(rest)
  {
  }

  // ---- What misleads the web client -------------------------------------------------------

  /** The same character, or the same letter in the other case. */
  predicate SameLetter(a: char, b: char) {
    || a == b
    || ('a' <= a <= 'z' && b as int == a as int - 32)
    || ('a' <= b <= 'z' && a as int == b as int - 32)
  }

  /** The text spells the marker from `i` on, in any mixture of cases, with a character other
      than a semicolon after it. */
  predicate SpelledAt(q: string, i: nat) {
    && i + 17 < |q| && q[i + 17] != ';'
    && forall k :: 0 <= k < 17 ==> SameLetter(q[i + k], "filename*=UTF-8''"[k])
  }

  lemma LowerIff(a: char, b: char)
    ensures Lower(a) == Lower(b) <==> SameLetter(a, b)
  {
  }

  lemma {:induction false} SpelledLooks(h: string, i: nat, n: nat)
    requires n <= |MARKER| && i + n <= |h|
    ensures LooksLike(h, i, n) <==> forall k :: 0 <= k < n ==> SameLetter(h[i + k], MARKER[k])
    decreases n
  {
    if n > 0 {
      SpelledLooks(h, i, n - 1);
      LowerIff(h[i + n - 1], MARKER[n - 1]);
    }
  }

  /** The quoted fallback as it stands in the header. */
  function Fallen(name: seq<Octet>): string {
    "\"" + Quoted(Fallback(name)) + "\""
  }

  /** A name misleads the web client exactly when its quoted fallback, quotes included, holds the
      marker in any case with a character other than a semicolon after it. */
  lemma MisleadingIff(name: seq<Octet>)
    ensures Misleading(name) <==> exists i: nat :: SpelledAt(Fallen(name), i)
  {
    var q := Fallen(name);
    assert Shown(name) == q;
    if i: nat :| SpelledAt(q, i) {
      MatchesSpelled(q, i);
      MatchFound(q, i);
    }
    if Misleading(name) {
      MatchesSpelled(q, FindMarker(q, 0).value);
    }
  }

  lemma MatchesSpelled(q: string, i: nat)
    ensures MatchAt(q, i) <==> SpelledAt(q, i)
  {
    if i + 17 < |q| {
      SpelledLooks(q, i, 17);
      assert MARKER == "filename*=UTF-8''";
      assert MatchAt(q, i) <==> LooksLike(q, i, 17) && q[i + 17] != ';';
      forall k | 0 <= k < 17
        ensures SameLetter(q[i + k], MARKER[k]) <==> SameLetter(q[i + k], "filename*=UTF-8''"[k])
      {
      }
    }
  }

  // ---- Headers with a plain parameter only ------------------------------------------------

  function PlainHeader(x: string): string {
    "attachment; filename=\"" + x + "\""
  }

  lemma PlainHeaderParts(x: string)
    ensures PlainHeader(x) == "attachment" + ";" + (" " + ("filename=\"" + x + "\""))
  {
    var lead, rest := "attachment; filename=\"", x + "\"";
    assert lead == "attachment" + ";" + (" " + "filename=\"");
    assert PlainHeader(x) == lead + rest;
    assert "filename=\"" + x + "\"" == "filename=\"" + rest;
  }

  /** Both clients read a plain quoted parameter when there is no extended one. */
  lemma DesktopReadsPlain(x: string, header: string)
    requires header == PlainHeader(x) && ';' !in x
    ensures DesktopFilename(header) == Some(x)
  {
    var part, head := "filename=\"" + x + "\"", "attachment";
    PlainHeaderParts(x);
    SplitJoin(head, " " + part, "");
    OnePiece(head);
    OnePiece(" " + part);
    TrimPart(part);
    PlainParts(part, x);
    HeadParts(head);
    SecondPiece(head, " " + part, x);
  }

  lemma SecondPiece(a: string, b: string, x: string)
    requires ExtendedValue(Trim(a)).None? && PlainValue(Trim(a)).None?
    requires ExtendedValue(Trim(b)).None? && PlainValue(Trim(b)) == Some(x)
    ensures FirstExtended([a] + [b]).None? && FirstPlain([a] + [b]) == Some(x)
  {
    FirstExtendedJoin([a], [b]);
    FirstPlainJoin([a], [b]);
    assert [a][1..] == [] && [b][1..] == [];
  }

  lemma TrimPart(part: string)
    requires part != "" && !Blank(part[0]) && !Blank(part[|part| - 1])
    ensures Trim(" " + part) == part
  {
    assert (" " + part)[1..] == part;
    assert TrimLeft(part) == part && TrimRight(part) == part;
  }

  lemma PlainParts(part: string, x: string)
    requires part == "filename=\"" + x + "\""
    ensures ExtendedValue(part).None? && PlainValue(part) == Some(x)
  {
    assert part[8] == '=' && EXTENDED[8] == '*';
    assert part[..|PLAIN|] == PLAIN;
    var value := part[|PLAIN|..];
    assert value == "\"" + x + "\"";
    assert value[1..|value| - 1] == x;
  }

  lemma HeadParts(head: string)
    requires head == "attachment"
    ensures Trim(head) == head && ExtendedValue(head).None? && PlainValue(head).None?
  {
  }

  lemma NoMatchWithout(h: string, i: nat)
    requires '*' !in h
    ensures !MatchAt(h, i)
  {
    if i + 17 < |h| {
      SpelledLooks(h, i, 17);
      assert h[i + 8] in h && MARKER[8] == '*';
    }
  }

  /** No marker can be found where there is no asterisk. */
  lemma {:induction false} NoAsterisk(h: string, i: nat)
    requires '*' !in h && i <= |h|
    ensures FindMarker(h, i).None?
    decreases |h| - i
  {
    NoMatchWithout(h, i);
    if i < |h| {
      NoAsterisk(h, i + 1);
    }
  }

  /** The search for the plain parameter passes over a position that begins with no f. */
  lemma SkipOne(h: string, i: nat, j: nat)
    requires j == i + 1 && i + |PLAIN| < |h| && Lower(h[i]) != 'f'
    ensures PlainFilename(h, i) == PlainFilename(h, j)
  {
    assert Lower(h[i + 0]) != PLAIN[0];
  }

  lemma {:induction false} SkipsTo(h: string, i: nat, p: nat, found: Parsed)
    requires i <= p && p + |PLAIN| < |h| && forall k :: i <= k < p ==> Lower(h[k]) != 'f'
    requires found == PlainFilename(h, p)
    ensures found == PlainFilename(h, i)
    decreases p - i
  {
    if i < p {
      var j := i + 1;
      SkipsTo(h, j, p, found);
      SkipOne(h, i, j);
    }
  }

  lemma WebReadsPlain(x: string, header: string)
    requires header == PlainHeader(x) && x != "" && ';' !in x && '"' !in x && '*' !in x
    ensures ParseWeb(header) == Filename(x)
  {
    var lead := "attachment; filename=\"";
    assert header == lead + x + "\"";
    assert '*' !in lead;
    NoAsterisk(header, 0);
    assert header[..|lead|] == lead && |lead| == 22;
    forall k | 0 <= k < 12
      ensures Lower(header[k]) != 'f'
    {
      assert header[k] == lead[k];
    }
    PlainAt(header, lead, x);
    SkipsTo(header, 0, 12, Filename(x));
  }

  lemma PlainAt(header: string, lead: string, x: string)
    requires lead == "attachment; filename=\"" && header == lead + x + "\"" && x != "" && ';' !in x && '"' !in x
    ensures PlainFilename(header, 12) == Filename(x)
  {
    assert header[22..] == x + "\"";
    UpToEnd(x, "\"");
    assert header[21] == lead[21] == '"';
    forall j | 0 <= j < 9
      ensures Lower(header[12 + j]) == PLAIN[j]
    {
      assert header[12 + j] == lead[12 + j];
    }
  }

  lemma {:induction false} UpToEnd(x: string, end: string)
    requires ';' !in x && '"' !in x && end != "" && end[0] == '"'
    ensures UpToQuote(x + end) == x
  {
    if x == "" {
      assert x + end == end;
    } else {
      assert (x + end)[1..] == x[1..] + end;
      UpToEnd(x[1..], end);
    }
  }

  // ---- What the clients decode and trim ---------------------------------------------------

  ghost predicate HexAt(s: string, i: nat) {
    i < |s| && (s[i] in UPPER_HEX || s[i] in LOWER_HEX)
  }

  lemma HexAtIff(s: string, i: nat)
    requires i < |s|
    ensures HexAt(s, i) <==> HexValue(s[i]) >= 0
  {
    var c := s[i];
    if 'A' <= c <= 'F' {
      assert UPPER_HEX[c as int - 'A' as int + 10] == c;
    } else if 'a' <= c <= 'f' {
      assert LOWER_HEX[c as int - 'a' as int + 10] == c;
    } else if '0' <= c <= '9' {
      assert UPPER_HEX[c as int - '0' as int] == c;
    }
  }

  ghost predicate Escaped(s: string, i: nat) {
    i < |s| && s[i] == '%' ==> HexAt(s, i + 1) && HexAt(s, i + 2)
  }

  ghost predicate AllEscaped(s: string) {
    forall i: nat :: Escaped(s, i)
  }

  /** A suffix is well escaped if the whole is; and the whole is if the suffix and the
      characters before it are. */
  lemma SuffixEscaped(s: string, k: nat)
    requires k <= |s| && forall i: nat :: i < k ==> Escaped(s, i)
    ensures AllEscaped(s) <==> AllEscaped(s[k..])
  {
    forall i: nat | k <= i
      ensures Escaped(s[k..], i - k) <==> Escaped(s, i)
    {
    }
    if AllEscaped(s[k..]) {
      forall i: nat
        ensures Escaped(s, i)
      {
        if i >= k {
          assert Escaped(s[k..], i - k);
        }
      }
    }
    if AllEscaped(s) {
      forall i: nat
        ensures Escaped(s[k..], i)
      {
        assert Escaped(s, i + k);
      }
    }
  }

  /** Percent-decoding fails exactly when some percent sign is not followed by two hexadecimal
      digits. */
  lemma {:induction false} DecodesIff(s: string)
    ensures PercentDecode(s).Some? <==> AllEscaped(s)
  {
    if s != "" && s[0] != '%' {
      DecodesIff(s[1..]);
      SuffixEscaped(s, 1);
    } else if s != "" {
      EscapeFirst(s);
      if Escaped(s, 0) {
        DecodesIff(s[3..]);
        AfterEscape(s);
      }
    }
  }

  lemma EscapeFirst(s: string)
    requires s != "" && s[0] == '%'
    ensures Escaped(s, 0) <==> |s| >= 3 && HexValue(s[1]) >= 0 && HexValue(s[2]) >= 0
  {
    if |s| >= 3 {
      HexAtIff(s, 1);
      HexAtIff(s, 2);
    }
  }

  lemma AfterEscape(s: string)
    requires s != "" && s[0] == '%' && Escaped(s, 0)
    ensures |s| >= 3 && (AllEscaped(s) <==> AllEscaped(s[3..]))
  {
    HexIsNoPercent(s, 1);
    HexIsNoPercent(s, 2);
    SuffixEscaped(s, 3);
  }

  lemma HexIsNoPercent(s: string, i: nat)
    requires HexAt(s, i)
    ensures Escaped(s, i)
  {
  }

  /** Text without percent signs decodes to its own UTF-8 form, byte by byte of it. */
  lemma DecodesPlain(c: char, rest: string)
    requires c != '%' && PercentDecode(rest).Some?
    ensures PercentDecode([c] + rest) == Some(Utf8(c) + PercentDecode(rest).value)
  {
    assert ([c] + rest)[1..] == rest;
  }

  /** A space, a tab or a no-break space. */
  predicate IsBlank(c: char) {
    c in [' ', '\t', 160 as char]
  }

  lemma {:induction false} TrimmedLeft(s: string)
    ensures var t := TrimLeft(s);
            && |t| <= |s| && t == s[|s| - |t|..] && (t == "" || !IsBlank(t[0]))
            && forall i :: 0 <= i < |s| - |t| ==> IsBlank(s[i])
  {
    if s != "" && Blank(s[0]) {
      TrimmedLeft(s[1..]);
    }
  }

  lemma {:induction false} TrimmedRight(s: string)
    ensures var t := TrimRight(s);
            t <= s && (t == "" || !IsBlank(t[|t| - 1])) && forall i :: |t| <= i < |s| ==> IsBlank(s[i])
  {
    if s != "" && Blank(s[|s| - 1]) {
      TrimmedRight(s[..|s| - 1]);
    }
  }

  /** Trimming takes the blanks off both ends, all of them and nothing else. */
  lemma TrimIs(s: string) returns (i: nat, j: nat)
    ensures i <= j <= |s| && Trim(s) == s[i..j]
    ensures (i < j ==> !IsBlank(s[i]) && !IsBlank(s[j - 1]))
    ensures forall k :: 0 <= k < i || j <= k < |s| ==> IsBlank(s[k])
  {
    var t := TrimLeft(s);
    TrimmedLeft(s);
    TrimmedRight(t);
    i := |s| - |t|;
    j := i + |TrimRight(t)|;
    assert s[i..j] == t[..|TrimRight(t)|];
    forall k | j <= k < |s|
      ensures IsBlank(s[k])
    {
      assert s[k] == t[k - i];
    }
  }
}
