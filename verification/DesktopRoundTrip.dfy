/** The same question for the desktop client, which splits the header at its semicolons. */
module DesktopRoundTrip {
  import opened Basics
  import opened Disposition
  import opened FilenameRoundTrip

  lemma {:induction false} SplitJoin(a: string, b: string, p: string)
    ensures Split(a + ";" + b, p) == Split(a, p) + Split(b, "")
  {
    var s := a + ";" + b;
    if a == "" {
      assert s[1..] == b;
    } else {
      assert s[1..] == a[1..] + ";" + b;
      SplitJoin(a[1..], b, if a[0] == ';' then "" else p + [a[0]]);
    }
  }

  lemma {:induction false} SplitOne(s: string, p: string)
    requires ';' !in s
    ensures Split(s, p) == Kept(p + s)
  {
    if s == "" {
      assert p + s == p;
    } else {
      assert p + [s[0]] + s[1..] == p + s;
      SplitOne(s[1..], p + [s[0]]);
    }
  }

  lemma {:induction false} FirstExtendedJoin(a: seq<string>, b: seq<string>)
    ensures FirstExtended(a + b) == if FirstExtended(a).Some? then FirstExtended(a) else FirstExtended(b)
  {
    if a == [] {
      assert a + b == b;
    } else {
      assert (a + b)[1..] == a[1..] + b;
      FirstExtendedJoin(a[1..], b);
    }
  }

  /** A piece of the quoted fallback that passes for a filename* parameter and decodes. */
  predicate MisleadingPiece(name: seq<Octet>) {
    FirstExtended(Pieces(MIDDLE + Shown(name))).Some?
  }

  const HEAD := "attachment"

  const MIDDLE := " filename="

  /** The header's real last piece. */
  function LastPiece(name: seq<Octet>): string {
    " " + MARKER + Encoded(name)
  }

  lemma LeadSplits()
    ensures LEAD == HEAD + ";" + MIDDLE
  {
  }

  lemma MarkerSplits()
    ensures MARKER == EXTENDED + CHARSET
  {
  }

  lemma Regroup(h: string, c: string, mid: string, q: string, sp: string, m: string, e: string)
    ensures (h + c + mid) + q + (c + sp) + m + e == (h + c + (mid + q)) + c + (sp + m + e)
  {
    assert (h + c + mid) + q == h + c + (mid + q);
  }

  lemma HeaderPieces(name: seq<Octet>)
    ensures Pieces(Header(name)) == [HEAD] + Pieces(MIDDLE + Shown(name)) + [LastPiece(name)]
  {
    LeadSplits();
    assert ";" + " " == "; ";
    Regroup(HEAD, ";", MIDDLE, Shown(name), " ", MARKER, Encoded(name));
    SplitJoin(HEAD + ";" + (MIDDLE + Shown(name)), LastPiece(name), "");
    SplitJoin(HEAD, MIDDLE + Shown(name), "");
    LastIsOne(name);
    OnePiece(HEAD);
  }

  lemma LastIsOne(name: seq<Octet>)
    ensures Pieces(LastPiece(name)) == [LastPiece(name)]
  {
    EncodedDecodes(name);
    assert ';' !in MARKER && ';' !in Encoded(name);
    OnePiece(LastPiece(name));
  }

  lemma OnePiece(s: string)
    requires s != "" && ';' !in s
    ensures Pieces(s) == [s]
  {
    SplitOne(s, "");
    assert "" + s == s;
  }

  lemma MarkerEnds()
    ensures !Blank(MARKER[0]) && !Blank(MARKER[|MARKER| - 1])
  {
  }

  lemma EncodedNoBlank(name: seq<Octet>)
    ensures forall i :: 0 <= i < |Encoded(name)| ==> !Blank(Encoded(name)[i])
  {
    EncodedDecodes(name);
  }

  /** The last piece gives the name, unless its bytes are not UTF-8. */
  lemma LastPieceDecodes(name: seq<Octet>)
    ensures ExtendedValue(Trim(LastPiece(name))) == if ValidUtf8(name) then Some(name) else None
  {
    MarkerEnds();
    EncodedNoBlank(name);
    TrimBlank(MARKER, Encoded(name));
    MarkerSplits();
    PartValue(MARKER + Encoded(name), EXTENDED, CHARSET, Encoded(name));
    DecodedEncoded(name);
  }

  lemma TrimBlank(m: string, e: string)
    requires |m| > 0 && !Blank(m[0]) && !Blank(m[|m| - 1])
    requires forall i :: 0 <= i < |e| ==> !Blank(e[i])
    ensures Trim(" " + m + e) == m + e
  {
    var t := m + e;
    assert (" " + m + e)[1..] == t && t[0] == m[0];
    assert TrimLeft(" " + m + e) == TrimLeft(t) == t;
    assert t[|t| - 1] == if e == "" then m[|m| - 1] else e[|e| - 1];
  }

  lemma PartValue(part: string, extended: string, charset: string, e: string)
    requires part == extended + charset + e && extended == EXTENDED && charset == CHARSET
    ensures ExtendedValue(part) == Decoded(e)
  {
    assert part[..|extended|] == extended && part[|extended|..] == charset + e;
    assert (charset + e)[..|charset|] == charset && (charset + e)[|charset|..] == e;
  }

  // ---- A misleading piece never yields the name -------------------------------------------

  lemma {:induction false} TrimLightens(s: string)
    ensures Weight(TrimLeft(s)) <= Weight(s)
    decreases |s|
  {
    if s != "" && Blank(s[0]) {
      TrimLightens(s[1..]);
    }
  }

  lemma {:induction false} TrimRightLightens(s: string)
    ensures Weight(TrimRight(s)) <= Weight(s)
    decreases |s|
  {
    if s != "" && Blank(s[|s| - 1]) {
      TrimRightLightens(s[..|s| - 1]);
      WeightSlice(s, 0, |s| - 1);
      assert s[0..|s| - 1] == s[..|s| - 1];
    }
  }

  lemma ExtendedValueLightens(part: string)
    requires ExtendedValue(part).Some?
    ensures Weight(ExtendedValue(part).value) < Weight(part)
  {
    var value := part[|EXTENDED|..];
    var text := if CHARSET <= value then value[|CHARSET|..] else value;
    DecodingLightens(text);
    WeightSlice(value, 0, |value| - |text|);
    WeightSlice(part, 8, 9);
    WeightSlice(part[9..], 0, 1);
    assert part[9..][1..] == value && value[|value| - |text|..] == text;
    assert part[8..9] == ['*'] by {
      assert part[8] == EXTENDED[8];
    }
  }

  lemma KeptLightens(p: string)
    requires FirstExtended(Kept(p)).Some?
    ensures Weight(FirstExtended(Kept(p)).value) < Weight(p)
  {
    ExtendedValueLightens(Trim(p));
    TrimLightens(p);
    TrimRightLightens(TrimLeft(p));
  }

  lemma {:induction false} FirstExtendedLightens(s: string, p: string)
    requires FirstExtended(Split(s, p)).Some?
    ensures Weight(FirstExtended(Split(s, p)).value) < Weight(p) + Weight(s)
    decreases s
  {
    if s == "" {
      KeptLightens(p);
    } else if s[0] == ';' {
      FirstExtendedJoin(Kept(p), Split(s[1..], ""));
      if FirstExtended(Kept(p)).Some? {
        KeptLightens(p);
      } else {
        FirstExtendedLightens(s[1..], "");
      }
    } else {
      FirstExtendedLightens(s[1..], p + [s[0]]);
      WeightAppend(p, [s[0]]);
    }
  }

  // ---- The plain parameter ----------------------------------------------------------------

  predicate From(v: string, s: string) {
    forall c :: c in v ==> c in s
  }

  lemma {:induction false} TrimFrom(s: string)
    ensures From(TrimLeft(s), s)
    decreases |s|
  {
    if s != "" && Blank(s[0]) {
      TrimFrom(s[1..]);
    }
  }

  lemma {:induction false} TrimRightFrom(s: string)
    ensures From(TrimRight(s), s)
    decreases |s|
  {
    if s != "" && Blank(s[|s| - 1]) {
      TrimRightFrom(s[..|s| - 1]);
    }
  }

  lemma PlainValueFrom(p: string)
    ensures PlainValue(Trim(p)).Some? ==> From(PlainValue(Trim(p)).value, p)
  {
    TrimFrom(p);
    TrimRightFrom(TrimLeft(p));
  }

  lemma {:induction false} FirstPlainJoin(a: seq<string>, b: seq<string>)
    ensures FirstPlain(a + b) == if FirstPlain(a).Some? then FirstPlain(a) else FirstPlain(b)
  {
    if a == [] {
      assert a + b == b;
    } else {
      assert (a + b)[1..] == a[1..] + b;
      FirstPlainJoin(a[1..], b);
    }
  }

  lemma {:induction false} FirstPlainFrom(s: string, p: string)
    requires FirstPlain(Split(s, p)).Some?
    ensures From(FirstPlain(Split(s, p)).value, p + s)
    decreases s
  {
    PlainValueFrom(p);
    if s == "" {
    } else if s[0] == ';' {
      FirstPlainJoin(Kept(p), Split(s[1..], ""));
      if FirstPlain(Kept(p)).None? {
        FirstPlainFrom(s[1..], "");
      }
    } else {
      FirstPlainFrom(s[1..], p + [s[0]]);
      assert p + [s[0]] + s[1..] == p + s;
    }
  }

  lemma {:induction false} AsciiIsUtf8(s: string)
    requires forall i :: 0 <= i < |s| ==> s[i] as int < 128
    ensures ValidUtf8(s)
  {
    if s != "" {
      AsciiIsUtf8(s[1..]);
    }
  }

  // ---- The round trip ---------------------------------------------------------------------

  lemma Searched(name: seq<Octet>)
    ensures FirstExtended(Pieces(Header(name))) ==
            if MisleadingPiece(name) then FirstExtended(Pieces(MIDDLE + Shown(name)))
            else if ValidUtf8(name) then Some(name) else None
  {
    HeaderPieces(name);
    FirstExtendedJoin([HEAD] + Pieces(MIDDLE + Shown(name)), [LastPiece(name)]);
    FirstExtendedJoin([HEAD], Pieces(MIDDLE + Shown(name)));
    LastPieceDecodes(name);
    HeadIsNoParameter();
  }

  lemma HeadIsNoParameter()
    ensures FirstExtended([HEAD]).None?
  {
  }

  lemma MisledPieceIsWrong(name: seq<Octet>)
    requires MisleadingPiece(name)
    ensures FirstExtended(Pieces(MIDDLE + Shown(name))) != Some(name)
  {
    assert Weight(MIDDLE) == 0 by {
      assert forall i :: 0 <= i < |MIDDLE| ==> MIDDLE[i] != '*' && MIDDLE[i] != '%';
      Weightless(MIDDLE);
    }
    LightPieces(MIDDLE, Shown(name));
    ShownKeepsWeight(name);
  }

  lemma LightPieces(a: string, b: string)
    requires Weight(a) == 0 && FirstExtended(Pieces(a + b)).Some?
    ensures Weight(FirstExtended(Pieces(a + b)).value) < Weight(b)
  {
    FirstExtendedLightens(a + b, "");
    WeightAppend(a, b);
  }

  /** The plain parameter is printable, a name that is not UTF-8 never is. */
  lemma PlainIsWrong(name: seq<Octet>)
    requires !ValidUtf8(name)
    ensures FirstPlain(Pieces(Header(name))) != Some(name)
  {
    HeaderPrintable(name);
    if FirstPlain(Pieces(Header(name))) == Some(name) {
      FirstPlainFrom(Header(name), "");
      assert "" + Header(name) == Header(name);
      assert forall i :: 0 <= i < |name| ==> name[i] in Header(name);
      AsciiIsUtf8(name);
    }
  }

  /** The desktop client gets the name back, byte for byte, exactly when it is UTF-8 and no
      piece of its quoted fallback passes for a filename* parameter. */
  lemma DesktopRoundTripIff(name: seq<Octet>)
    ensures DesktopFilename(Header(name)) == Some(name) <==> ValidUtf8(name) && !MisleadingPiece(name)
  {
    Searched(name);
    if MisleadingPiece(name) {
      MisledPieceIsWrong(name);
    } else if !ValidUtf8(name) {
      PlainIsWrong(name);
    }
  }

  // ---- Names that mislead -----------------------------------------------------------------

  lemma {:induction false} PlainDecodes(s: string)
    requires forall i :: 0 <= i < |s| ==> ' ' <= s[i] <= '~' && s[i] != '%'
    ensures PercentDecode(s) == Some(s) && ValidUtf8(s)
  {
    if s != "" {
      PlainDecodes(s[1..]);
      assert Utf8(s[0]) + s[1..] == s;
    }
  }

  lemma NoBlankTrim(s: string)
    requires s != "" && !Blank(s[0]) && !Blank(s[|s| - 1])
    ensures Trim(s) == s
  {
    assert TrimLeft(s) == s && TrimRight(s) == s;
  }

  /** A second piece that starts like an extended parameter and has no escapes misleads. */
  lemma PieceMisleads(first: string, value: string)
    requires forall i :: 0 <= i < |value| ==> ' ' < value[i] <= '~' && value[i] != '%' && value[i] != ';'
    requires value != "" && !(CHARSET <= value)
    ensures FirstExtended(Pieces(first + ";" + (EXTENDED + value))).Some?
  {
    var part := EXTENDED + value;
    SplitJoin(first, part, "");
    assert ';' !in EXTENDED;
    OnePiece(part);
    FirstExtendedJoin(Pieces(first), [part]);
    assert part[0] == EXTENDED[0] && part[|part| - 1] == value[|value| - 1];
    NoBlankTrim(part);
    assert part[..|EXTENDED|] == EXTENDED && part[|EXTENDED|..] == value;
    PlainDecodes(value);
  }

  lemma RegroupName(mid: string, q: string, a: string, c: string, e: string, b: string)
    ensures mid + (q + (a + c + e + b) + q) == (mid + (q + a)) + c + (e + (b + q))
  {
  }

  /** Every plain name with a semicolon before an extended parameter without escapes misleads
      the desktop client. */
  lemma ParameterInNameMisleads(a: seq<Ascii>, e: seq<Ascii>, b: seq<Ascii>)
    requires Plain(a) && Plain(b) && e == EXTENDED
    requires forall i :: 0 <= i < |b| ==> b[i] != ' ' && b[i] != '%' && b[i] != ';'
    requires !(CHARSET <= b + "\"")
    ensures MisleadingPiece(a + ";" + e + b) && DesktopFilename(Header(a + ";" + e + b)) != Some(a + ";" + e + b)
  {
    var name := a + ";" + e + b;
    ExtendedPlain();
    PlainJoin(a, ";");
    PlainJoin(a + ";", e);
    PlainJoin(a + ";" + e, b);
    QuotedPlain(name);
    RegroupName(MIDDLE, ['"'], a, ";", e, b);
    PieceMisleads(MIDDLE + (['"'] + a), b + ['"']);
    DesktopRoundTripIff(name);
  }

  /** For instance "a;filename*=x". */
  lemma SemicolonMisleads(name: seq<Ascii>)
    requires name == "a" + ";" + EXTENDED + "x"
    ensures DesktopFilename(Header(name)) != Some(name)
  {
    ParameterInNameMisleads("a", EXTENDED, "x");
  }

  lemma ExtendedPlain()
    ensures Plain(EXTENDED) && Plain(";")
  {
  }
}
