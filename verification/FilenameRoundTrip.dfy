/** Which filename the two clients read back from the server's own header, exactly. */
module FilenameRoundTrip {
  import opened Basics
  import opened Disposition

  // ---- A weight that quoting keeps and decoding cannot raise ------------------------------

  /** Number of asterisks and percent signs. */
  function Weight(s: string): nat {
    if s == "" then 0 else (if s[0] == '*' || s[0] == '%' then 1 else 0) + Weight(s[1..])
  }

  lemma {:induction false} WeightAppend(a: string, b: string)
    ensures Weight(a + b) == Weight(a) + Weight(b)
  {
    if a == "" {
      assert a + b == b;
    } else {
      assert (a + b)[1..] == a[1..] + b;
      WeightAppend(a[1..], b);
    }
  }

  lemma {:induction false} Weightless(s: string)
    requires forall i :: 0 <= i < |s| ==> s[i] != '*' && s[i] != '%'
    ensures Weight(s) == 0
  {
    if s != "" {
      Weightless(s[1..]);
    }
  }

  lemma WeightSlice(s: string, i: nat, j: nat)
    requires i <= j <= |s|
    ensures Weight(s) == Weight(s[..i]) + Weight(s[i..j]) + Weight(s[j..])
  {
    assert s == s[..i] + s[i..j] + s[j..];
    WeightAppend(s[..i] + s[i..j], s[j..]);
    WeightAppend(s[..i], s[i..j]);
  }

  lemma {:induction false} DecodingLightens(s: string)
    ensures PercentDecode(s).Some? ==> Weight(PercentDecode(s).value) <= Weight(s)
  {
    if s == "" || PercentDecode(s).None? {
    } else if s[0] == '%' {
      DecodingLightens(s[3..]);
      assert s[1..][1..][1..] == s[3..];
    } else {
      DecodingLightens(s[1..]);
      WeightAppend(Utf8(s[0]), PercentDecode(s[1..]).value);
      if s[0] as int >= 128 {
        Weightless(Utf8(s[0]));
      }
    }
  }

  lemma {:induction false} QuotingKeepsWeight(s: seq<Ascii>)
    ensures Weight(Quoted(s)) == Weight(s)
  {
    if s != "" {
      QuotingKeepsWeight(s[1..]);
      WeightAppend(QuotedChar(s[0]), Quoted(s[1..]));
      if s[0] != '*' && s[0] != '%' {
        Weightless(QuotedChar(s[0]));
      }
    }
  }

  lemma {:induction false} FallbackKeepsWeight(name: seq<Octet>)
    ensures Weight(AsciiFallback(name)) == Weight(name)
  {
    if name != "" {
      var n := if RuneLength(name) == 0 then 1 else RuneLength(name);
      FallbackKeepsWeight(name[n..]);
      WeightSlice(name, 0, n);
      if name[0] as int >= 128 {
        Weightless(name[..n]);
      }
    }
  }

  /** The header's first parameter value. */
  function Shown(name: seq<Octet>): string {
    Literal(Fallback(name))
  }

  lemma ShownKeepsWeight(name: seq<Octet>)
    ensures Weight(Shown(name)) == Weight(name)
  {
    var s := Fallback(name);
    QuotingKeepsWeight(s);
    FallbackKeepsWeight(name);
    WeightAppend(['"'] + Quoted(s), ['"']);
    WeightAppend(['"'], Quoted(s));
  }

  // ---- The header itself ------------------------------------------------------------------

  predicate Printable(s: string) {
    forall c :: c in s ==> ' ' <= c <= '~'
  }

  lemma {:induction false} QuotedPrintable(s: seq<Ascii>)
    ensures Printable(Quoted(s))
  {
    if s != "" {
      QuotedPrintable(s[1..]);
    }
  }

  lemma PrintableJoin(a: string, b: string)
    requires Printable(a) && Printable(b)
    ensures Printable(a + b)
  {
  }

  lemma ConstantsPrintable()
    ensures Printable(LEAD) && Printable(MARKER)
  {
  }

  lemma EncodedPrintable(name: seq<Octet>)
    ensures Printable(Encoded(name))
  {
    EncodedDecodes(name);
  }

  /** Whatever bytes a name holds, the header is one line of printable ASCII. */
  lemma HeaderPrintable(name: seq<Octet>)
    ensures Printable(Header(name))
  {
    QuotedPrintable(Fallback(name));
    ConstantsPrintable();
    EncodedPrintable(name);
    PrintableJoin(LEAD, Shown(name));
    PrintableJoin(LEAD + Shown(name), "; ");
    PrintableJoin(LEAD + Shown(name) + "; ", MARKER);
    PrintableJoin(LEAD + Shown(name) + "; " + MARKER, Encoded(name));
  }

  lemma JoinLast(a: string, b: string, c: string, d: string, e: string)
    ensures a + b + c + d + e == a + b + c + (d + e)
    ensures a + b + c + d + e == a + b + (c + d + e)
  {
  }

  lemma Layout(a: string, b: string, c: string, d: string, e: string)
    ensures var h, p := a + b + c + d + e, |a| + |b| + |c|;
            && |h| == p + |d| + |e|
            && h[..|a|] == a && h[|a|..|a| + |b|] == b && h[|a| + |b|..p] == c
            && h[p..p + |d|] == d && h[p + |d|..] == e
  {
  }

  // ---- The web client ---------------------------------------------------------------------

  /** A marker inside the quoted fallback, which the web client finds before the real one. */
  predicate Misleading(name: seq<Octet>) {
    FindMarker(Shown(name), 0).Some?
  }

  /** Index of the real marker. */
  function RealMarker(name: seq<Octet>): nat {
    |LEAD| + |Shown(name)| + 2
  }

  lemma {:induction false} LooksLikeAt(h: string, i: nat, n: nat, k: nat)
    requires n <= |MARKER| && i + n <= |h| && k < n && LooksLike(h, i, n)
    ensures Lower(h[i + k]) == Lower(MARKER[k])
    decreases n
  {
    if k < n - 1 {
      LooksLikeAt(h, i, n - 1, k);
    }
  }

  lemma {:induction false} SameLooks(h: string, i: nat, g: string, k: nat, n: nat)
    requires n <= |MARKER| && i + n <= |h| && k + n <= |g| && h[i..i + n] == g[k..k + n]
    ensures LooksLike(h, i, n) <==> LooksLike(g, k, n)
    decreases n
  {
    if n > 0 {
      var x, y := h[i..i + n], g[k..k + n];
      assert h[i..i + n - 1] == x[..n - 1];
      assert g[k..k + n - 1] == y[..n - 1];
      assert h[i + n - 1] == x[n - 1] == y[n - 1] == g[k + n - 1];
      SameLooks(h, i, g, k, n - 1);
    }
  }

  lemma {:induction false} MarkerLooks(n: nat)
    requires n <= |MARKER|
    ensures LooksLike(MARKER, 0, n)
    decreases n
  {
    if n > 0 {
      MarkerLooks(n - 1);
    }
  }

  /** A marker has no quote, semicolon or space. */
  lemma MarkerHasNo(h: string, i: nat, k: nat)
    requires MarkerAt(h, i) && i <= k < i + |MARKER|
    ensures h[k] != '"' && h[k] != ';' && h[k] != ' '
  {
    LooksLikeAt(h, i, |MARKER|, k - i);
  }

  /** Text with a space, a semicolon or a quote inside each marker's reach: only `q` can hold
      a marker that starts before the end of `a + q + b`. */
  lemma OnlyInside(a: string, q: string, b: string, rest: string, i: nat)
    requires |a| == 21 && a[10] == ';' && a[11] == ' '
    requires |q| >= 2 && q[0] == '"' && q[|q| - 1] == '"'
    requires b == "; " && i < |a| + |q| + 2
    ensures MatchAt(a + q + b + rest, i) <==> |a| <= i && MatchAt(q, i - |a|)
  {
    var h, last := a + q + b + rest, |a| + |q| - 1;
    assert h[10] == a[10] && h[11] == a[11] && h[21] == q[0] && h[last] == q[|q| - 1];
    assert h[last + 1] == b[0] && h[last + 2] == b[1];
    if i >= 21 && i + |MARKER| <= last {
      var k := i - 21;
      assert h[i..i + |MARKER|] == q[k..k + |MARKER|];
      assert h[i + |MARKER|] == q[k + |MARKER|];
      SameLooks(h, i, q, k, |MARKER|);
    } else if MarkerAt(h, i) {
      var k := if i <= 10 then 10 else if i == 11 then 11 else if i < 21 then 21 else if i <= last then last else i;
      MarkerHasNo(h, i, k);
    }
  }

  /** The search finds the least match. */
  lemma {:induction false} FindMarkerIs(h: string, i: nat, p: nat)
    requires i <= p <= |h|
    requires forall m :: i <= m < p ==> !MatchAt(h, m)
    ensures FindMarker(h, i) == FindMarker(h, p)
    decreases p - i
  {
    if i < p {
      FindMarkerIs(h, i + 1, p);
    }
  }

  lemma {:induction false} NoneBefore(h: string, i: nat, m: nat)
    requires i <= m < |h|
    requires FindMarker(h, i) == None || m < FindMarker(h, i).value
    ensures !MatchAt(h, m)
    decreases m - i
  {
    if i < m {
      NoneBefore(h, i + 1, m);
    }
  }

  lemma SearchSplits(h: string, q: string, at: nat, p: nat)
    requires at + |q| <= p <= |h|
    requires forall i :: 0 <= i < p ==> (MatchAt(h, i) <==> at <= i && MatchAt(q, i - at))
    ensures FindMarker(h, 0) ==
            match FindMarker(q, 0)
            case Some(k) => Some(at + k)
            case None => FindMarker(h, p)
  {
    var g := FindMarker(q, 0);
    var end := if g.Some? then at + g.value else p;
    forall i | 0 <= i < end
      ensures !MatchAt(h, i)
    {
      if at <= i < at + |q| {
        NoneBefore(q, 0, i - at);
      }
    }
    FindMarkerIs(h, 0, end);
  }

  lemma HeaderSearch(name: seq<Octet>, i: nat)
    requires i < RealMarker(name)
    ensures MatchAt(Header(name), i) <==> |LEAD| <= i && MatchAt(Shown(name), i - |LEAD|)
  {
    JoinLast(LEAD, Shown(name), "; ", MARKER, Encoded(name));
    OnlyInside(LEAD, Shown(name), "; ", MARKER + Encoded(name), i);
  }

  lemma RealMatchIff(name: seq<Octet>)
    ensures RealMarker(name) <= |Header(name)|
    ensures MatchAt(Header(name), RealMarker(name)) <==> name != ""
    ensures name == "" ==> forall i :: RealMarker(name) <= i ==> !MatchAt(Header(name), i)
  {
    var h, p, e := Header(name), RealMarker(name), Encoded(name);
    Layout(LEAD, Shown(name), "; ", MARKER, e);
    assert h[p..p + |MARKER|] == MARKER[0..|MARKER|];
    MarkerLooks(|MARKER|);
    SameLooks(h, p, MARKER, 0, |MARKER|);
    EncodedDecodes(name);
    if name != "" {
      assert h[p + |MARKER|] == e[0];
    }
  }

  /** The first match in the header is the quoted fallback's own first match if it has one,
      and the real marker otherwise; the empty name leaves nothing to match there. */
  lemma FirstMatch(name: seq<Octet>)
    ensures FindMarker(Header(name), 0) ==
            match FindMarker(Shown(name), 0)
            case Some(k) => Some(|LEAD| + k)
            case None => if name == "" then None else Some(RealMarker(name))
  {
    forall i | 0 <= i < RealMarker(name)
      ensures MatchAt(Header(name), i) <==> |LEAD| <= i && MatchAt(Shown(name), i - |LEAD|)
    {
      HeaderSearch(name, i);
    }
    RealMatchIff(name);
    SearchSplits(Header(name), Shown(name), |LEAD|, RealMarker(name));
  }

  /** What the web client decodes when a marker inside the fallback misleads it comes from
      behind that marker, so it is lighter than the name and cannot be it. */
  lemma MisledIsWrong(name: seq<Octet>)
    requires Misleading(name)
    ensures ParseWeb(Header(name)) != Filename(name)
  {
    var q, rest := Shown(name), "; " + MARKER + Encoded(name);
    var k := FindMarker(q, 0).value;
    FirstMatch(name);
    HeaderAs(name, q, rest);
    CapturedInside(LEAD, q, rest, k);
    LightCapture(Header(name), |LEAD| + k, Weight(q));
    ShownKeepsWeight(name);
  }

  lemma HeaderAs(name: seq<Octet>, q: string, rest: string)
    requires q == Shown(name) && rest == "; " + MARKER + Encoded(name)
    ensures Header(name) == LEAD + q + rest
  {
    JoinLast(LEAD, q, "; ", MARKER, Encoded(name));
  }

  lemma LightCapture(h: string, i: nat, w: nat)
    requires MatchAt(h, i) && Weight(UpToSemicolon(h[i + |MARKER|..])) < w
    ensures Captured(h, i).Filename? ==> Weight(Captured(h, i).name) < w
  {
    DecodingLightens(UpToSemicolon(h[i + |MARKER|..]));
  }

  /** A match inside `q`, which a semicolon follows, captures less weight than `q` has. */
  lemma CapturedInside(a: string, q: string, c: string, k: nat)
    requires MatchAt(q, k) && c != "" && c[0] == ';'
    ensures Weight(UpToSemicolon((a + q + c)[|a| + k + |MARKER|..])) < Weight(q)
  {
    var tail := q[k + |MARKER|..];
    assert (a + q + c)[|a| + k + |MARKER|..] == tail + c;
    CutAtEnd(tail, c);
    WeightSlice(q, k, k + |MARKER|);
    MarkerWeighs(q, k);
  }

  lemma CutAtEnd(tail: string, c: string)
    requires c != "" && c[0] == ';'
    ensures Weight(UpToSemicolon(tail + c)) <= Weight(tail)
  {
    var text := UpToSemicolon(tail + c);
    assert (tail + c)[|tail|] == ';';
    assert |text| <= |tail| && text == tail[..|text|];
    WeightSlice(tail, 0, |text|);
    assert tail[0..|text|] == text;
  }

  /** The marker's asterisk. */
  lemma MarkerWeighs(q: string, k: nat)
    requires MarkerAt(q, k)
    ensures Weight(q[k..k + |MARKER|]) > 0
  {
    LooksLikeAt(q, k, |MARKER|, 8);
    var m := q[k..k + |MARKER|];
    assert m[8] == '*';
    WeightSlice(m, 8, 9);
    assert Weight(m[8..9]) == 1;
  }

  /** The web client gets the name back, byte for byte, exactly when the name is non-empty
      UTF-8 and its quoted fallback holds no marker of its own. */
  lemma WebRoundTripIff(name: seq<Octet>)
    ensures ParseWeb(Header(name)) == Filename(name) <==> name != "" && ValidUtf8(name) && !Misleading(name)
  {
    FirstMatch(name);
    if Misleading(name) {
      MisledIsWrong(name);
    } else if name != "" {
      RealCapture(name);
    } else {
      PlainNotEmpty(Header(name), 0);
    }
  }

  lemma {:induction false} RealCapture(name: seq<Octet>)
    requires name != ""
    ensures MatchAt(Header(name), RealMarker(name))
    ensures Captured(Header(name), RealMarker(name)) == if ValidUtf8(name) then Filename(name) else Malformed
  {
    RealMatchIff(name);
    HeaderTail(name);
    DecodedEncoded(name);
  }

  lemma HeaderTail(name: seq<Octet>)
    ensures RealMarker(name) + |MARKER| <= |Header(name)|
    ensures Header(name)[RealMarker(name) + |MARKER|..] == Encoded(name)
  {
    Layout(LEAD, Shown(name), "; ", MARKER, Encoded(name));
  }

  lemma DecodedEncoded(name: seq<Octet>)
    ensures UpToSemicolon(Encoded(name)) == Encoded(name)
    ensures Decoded(Encoded(name)) == if ValidUtf8(name) then Some(name) else None
  {
    EncodedDecodes(name);
    assert ';' !in Encoded(name);
  }

  lemma {:induction false} PlainNotEmpty(h: string, i: nat)
    requires i <= |h|
    ensures PlainFilename(h, i) != Filename("")
    decreases |h| - i
  {
    if i + |PLAIN| < |h| {
      PlainNotEmpty(h, i + 1);
    }
  }

  /** No escape is needed: what %q prints as it is. */
  predicate Plain(s: string) {
    forall i :: 0 <= i < |s| ==> ' ' <= s[i] <= '~' && s[i] != '"' && s[i] != '\\'
  }

  lemma {:induction false} QuotedPlain(s: seq<Ascii>)
    requires Plain(s)
    ensures Quoted(s) == s
  {
    if s != "" {
      QuotedPlain(s[1..]);
    }
  }

  lemma MatchFound(h: string, i: nat)
    requires MatchAt(h, i)
    ensures FindMarker(h, 0).Some?
  {
    if FindMarker(h, 0).None? {
      NoneBefore(h, 0, i);
    }
  }

  lemma MarkerInside(q: string, x: string, m: string, y: string)
    requires m == MARKER && q == x + m + y && y != "" && y[0] != ';'
    ensures FindMarker(q, 0).Some?
  {
    assert q[|x|..|x| + |m|] == m[0..|m|];
    assert q[|x| + |m|] == y[0];
    MarkerLooks(|m|);
    SameLooks(q, |x|, m, 0, |m|);
    MatchFound(q, |x|);
  }

  lemma Regroup(o: string, a: string, m: string, b: string, c: string)
    ensures o + (a + m + b) + c == (o + a) + m + (b + c)
  {
  }

  lemma PlainJoin(a: string, b: string)
    requires Plain(a) && Plain(b)
    ensures Plain(a + b)
  {
  }

  lemma MarkerPlain()
    ensures Plain(MARKER)
  {
  }

  /** Every plain name that contains the marker misleads the web client, unless a semicolon
      follows it; at the end of the name it is the closing quote that follows. */
  lemma MarkerInNameMisleads(a: seq<Ascii>, m: seq<Ascii>, b: seq<Ascii>)
    requires Plain(a) && m == MARKER && Plain(b) && (b != "" ==> b[0] != ';')
    ensures Misleading(a + m + b)
  {
    var name := a + m + b;
    MarkerPlain();
    PlainJoin(a, m);
    PlainJoin(a + m, b);
    QuotedPlain(name);
    Regroup(['"'], a, m, b, ['"']);
    MarkerInside(Shown(name), ['"'] + a, m, b + ['"']);
  }

  /** It must be the quoted fallback that is searched, not the name: a form feed comes out of
      %q as a backslash and an f, which completes a marker the name does not have. */
  lemma FormFeedMisleads(ilename: seq<Ascii>, name: seq<Ascii>)
    requires ['f'] + ilename == MARKER && name == ['\U{c}'] + ilename + ['x']
    ensures FindMarker(name, 0).None? && Misleading(name)
  {
    MarkerPlain();
    FormFeedShown(ilename, name, MARKER);
    MarkerInside(Shown(name), ['"', '\\'], MARKER, ['x', '"']);
    NoMatch(name);
  }

  lemma FormFeedShown(ilename: seq<Ascii>, name: seq<Ascii>, m: string)
    requires ['f'] + ilename == m && Plain(m) && name == ['\U{c}'] + ilename + ['x']
    ensures Shown(name) == ['"', '\\'] + m + ['x', '"']
  {
    var rest: seq<Ascii> := ilename + ['x'];
    assert Plain(rest) by {
      assert forall i :: 0 <= i < |ilename| ==> ilename[i] == m[i + 1];
    }
    FormFeedQuoted(rest, name);
    assert ['"'] + (['\\', 'f'] + rest) + ['"'] == ['"', '\\'] + m + ['x', '"'];
  }

  lemma FormFeedQuoted(rest: seq<Ascii>, name: seq<Ascii>)
    requires Plain(rest) && name == ['\U{c}'] + rest
    ensures Quoted(name) == ['\\', 'f'] + rest
  {
    QuotedPlain(rest);
    assert name[0] == '\U{c}' && name[1..] == rest;
    assert QuotedChar(name[0]) == ['\\', 'f'];
  }

  lemma NoMatch(name: string)
    requires |name| == |MARKER| + 1 && Lower(name[0]) != 'f'
    ensures FindMarker(name, 0).None?
  {
    forall m | 0 <= m < |name|
      ensures !MatchAt(name, m)
    {
      if m == 0 && MarkerAt(name, 0) {
        LooksLikeAt(name, 0, |MARKER|, 0);
      }
    }
    FindMarkerIs(name, 0, |name|);
  }
}
