/** File names: path base and extension, the "name (n).ext" convention of uploads and of the
    uniqueness migration, and the conflict-copy convention of folder sync. */
module FileNames {

  /** Decimal digits, as fmt's %d and SQL's integer-to-text conversion print a natural number. */
  function Decimal(n: nat): string {
    var digit := ('0' as int + n % 10) as char;
    if n < 10 then [digit] else Decimal(n / 10) + [digit]
  }

  lemma {:induction false} DecimalDigits(n: nat)
    ensures |Decimal(n)| > 0
    ensures forall i :: 0 <= i < |Decimal(n)| ==> '0' <= Decimal(n)[i] <= '9'
  {
    if n >= 10 {
      DecimalDigits(n / 10);
    }
  }

  function DecimalValue(s: string): int {
    if s == "" then 0 else 10 * DecimalValue(s[..|s| - 1]) + (s[|s| - 1] as int - '0' as int)
  }

  lemma {:induction false} DecimalRoundTrip(n: nat)
    ensures DecimalValue(Decimal(n)) == n
  {
    var s := Decimal(n);
    if n < 10 {
      assert s[..|s| - 1] == "";
    } else {
      assert s[..|s| - 1] == Decimal(n / 10);
      DecimalRoundTrip(n / 10);
    }
  }

  /** Decimal writes digits only, without leading zeros; with the round trip that settles it. */
  lemma {:induction false} DecimalCanonical(n: nat)
    ensures |Decimal(n)| > 0 && (n > 0 ==> Decimal(n)[0] != '0') && (n < 10 ==> |Decimal(n)| == 1)
    ensures forall i :: 0 <= i < |Decimal(n)| ==> '0' <= Decimal(n)[i] <= '9'
  {
    DecimalDigits(n);
    if n >= 10 {
      DecimalCanonical(n / 10);
      assert Decimal(n)[0] == Decimal(n / 10)[0];
    }
  }

  /** Index of the last dot that no slash follows, or -1. */
  function LastDot(s: string): (k: int)
    ensures -1 <= k < |s|
  {
    if s == "" || s[|s| - 1] == '/' then -1
    else if s[|s| - 1] == '.' then |s| - 1
    else LastDot(s[..|s| - 1])
  }

  lemma {:induction false} LastDotIsLast(s: string)
    ensures LastDot(s) >= 0 ==> s[LastDot(s)] == '.'
    ensures LastDot(s) >= 0 || '/' !in s ==> forall i :: LastDot(s) < i < |s| ==> s[i] != '.'
  {
    if s != "" {
      LastDotIsLast(s[..|s| - 1]);
    }
  }

  /** filepath.Ext: the suffix beginning at the last dot of the final path element. */
  function Ext(name: string): string {
    if LastDot(name) < 0 then "" else name[LastDot(name)..]
  }

  /** strings.TrimSuffix(name, Ext(name)). */
  function Stem(name: string): string {
    if LastDot(name) < 0 then name else name[..LastDot(name)]
  }

  /** "report.pdf", 1 gives "report (1).pdf". */
  function DedupedName(base: string, n: nat): string {
    Stem(base) + " (" + Decimal(n) + ")" + Ext(base)
  }

  lemma {:induction false} LastDotIs(s: string, k: int)
    requires -1 <= k < |s|
    requires '/' !in s
    requires k >= 0 ==> s[k] == '.'
    requires forall i :: k < i < |s| ==> s[i] != '.'
    ensures LastDot(s) == k
  {
    if s != "" && k < |s| - 1 {
      LastDotIs(s[..|s| - 1], k);
    }
  }

  /** A suffix that begins with its only dot. */
  predicate DotSuffix(ext: string) {
    ext != "" && ext[0] == '.' && '.' !in ext[1..]
  }

  /** An extension is empty or begins with its only dot. */
  lemma ExtShape(base: string)
    requires '/' !in base
    ensures Stem(base) + Ext(base) == base && '/' !in Stem(base) && '/' !in Ext(base)
    ensures if '.' !in base then Ext(base) == "" && '.' !in Stem(base)
            else DotSuffix(Ext(base))
  {
    LastDotIsLast(base);
  }

  lemma TagKeeps(stem: string, n: nat, c: char)
    requires c == '/' || c == '.'
    requires c !in stem
    ensures c !in stem + " (" + Decimal(n) + ")"
  {
    DecimalDigits(n);
    assert c !in Decimal(n);
    assert c !in stem + " (";
    assert c !in stem + " (" + Decimal(n);
  }

  lemma {:induction false} LastDotOf(stem: string, ext: string)
    requires '/' !in stem && '/' !in ext
    requires if ext == "" then '.' !in stem else DotSuffix(ext)
    ensures LastDot(stem + ext) == if ext == "" then -1 else |stem|
  {
    var name := stem + ext;
    if ext == "" {
      LastDotIs(name, -1);
    } else {
      assert name[|stem|] == '.' && '/' !in name;
      forall i | |stem| < i < |name|
        ensures name[i] != '.'
      {
        assert name[i] == ext[1..][i - |stem| - 1];
      }
      LastDotIs(name, |stem|);
    }
  }

  lemma SplitsAt(stem: string, ext: string)
    requires '/' !in stem && '/' !in ext
    requires if ext == "" then '.' !in stem else DotSuffix(ext)
    ensures Ext(stem + ext) == ext && Stem(stem + ext) == stem
  {
    LastDotOf(stem, ext);
    assert (stem + ext)[..|stem|] == stem && (stem + ext)[|stem|..] == ext;
  }

  /** Numbering a name keeps its extension, so "a.tar.gz" becomes "a.tar (1).gz". */
  lemma DedupedKeepsExtension(base: string, n: nat)
    requires '/' !in base
    ensures Ext(DedupedName(base, n)) == Ext(base)
    ensures Stem(DedupedName(base, n)) == Stem(base) + " (" + Decimal(n) + ")"
    ensures '/' !in DedupedName(base, n)
  {
    var tagged, ext := Stem(base) + " (" + Decimal(n) + ")", Ext(base);
    ExtShape(base);
    TagKeeps(Stem(base), n, '/');
    if ext == "" {
      TagKeeps(Stem(base), n, '.');
    }
    SplitsAt(tagged, ext);
  }

  /** Distinct numbers give distinct names: the retry loop never tries a name twice. */
  lemma DedupedInjective(base: string, m: nat, n: nat)
    requires DedupedName(base, m) == DedupedName(base, n)
    ensures m == n
  {
    var p := |Stem(base) + " ("|;
    var x, y := DedupedName(base, m), DedupedName(base, n);
    assert x[p..p + |Decimal(m)|] == Decimal(m);
    assert y[p..p + |Decimal(n)|] == Decimal(n);
    assert |x| == p + |Decimal(m)| + 1 + |Ext(base)|;
    assert |y| == p + |Decimal(n)| + 1 + |Ext(base)|;
    DecimalRoundTrip(m);
    DecimalRoundTrip(n);
  }

  /** A numbered name is longer than its base. */
  lemma DedupedDiffers(base: string, n: nat)
    ensures DedupedName(base, n) != base
  {
  }

  // ---- The migration's SQL spelling of the same split -------------------------------------

  function Reverse(s: string): (r: string)
    ensures |r| == |s|
  {
    if s == "" then "" else [s[|s| - 1]] + Reverse(s[..|s| - 1])
  }

  /** SQL position('.' IN s): 1-based, 0 when absent. */
  function DotPosition(s: string): (k: nat)
    ensures k <= |s|
  {
    if s == "" then 0
    else if s[0] == '.' then 1
    else if DotPosition(s[1..]) == 0 then 0 else 1 + DotPosition(s[1..])
  }

  function SqlStem(name: string): string {
    var dotPos := DotPosition(Reverse(name));
    if dotPos == 0 then name else name[..|name| - dotPos]
  }

  function SqlExt(name: string): string {
    var dotPos := DotPosition(Reverse(name));
    if dotPos == 0 then "" else name[|name| - dotPos..]
  }

  function SqlCandidate(name: string, suffix: nat): string {
    SqlStem(name) + " (" + Decimal(suffix) + ")" + SqlExt(name)
  }

  lemma {:induction false} DotPositionReversed(name: string)
    requires '/' !in name
    ensures DotPosition(Reverse(name)) == if LastDot(name) < 0 then 0 else |name| - LastDot(name)
  {
    if name != "" {
      var front := name[..|name| - 1];
      assert Reverse(name)[1..] == Reverse(front);
      DotPositionReversed(front);
    }
  }

  /** On slash-free names the migration and the upload path propose the same names. */
  lemma SqlCandidateIsDedupedName(name: string, n: nat)
    requires '/' !in name
    ensures SqlStem(name) == Stem(name) && SqlExt(name) == Ext(name)
    ensures SqlCandidate(name, n) == DedupedName(name, n)
  {
    DotPositionReversed(name);
  }

  lemma SqlCandidateInjective(name: string, m: nat, n: nat)
    requires SqlCandidate(name, m) == SqlCandidate(name, n)
    ensures m == n
  {
    var p := |SqlStem(name) + " ("|;
    var x, y := SqlCandidate(name, m), SqlCandidate(name, n);
    assert x[p..p + |Decimal(m)|] == Decimal(m);
    assert y[p..p + |Decimal(n)|] == Decimal(n);
    assert |x| == p + |Decimal(m)| + 1 + |SqlExt(name)|;
    assert |y| == p + |Decimal(n)| + 1 + |SqlExt(name)|;
    DecimalRoundTrip(m);
    DecimalRoundTrip(n);
  }

  lemma {:induction false} ReverseAt(s: string, i: nat)
    requires i < |s|
    ensures Reverse(s)[i] == s[|s| - 1 - i]
  {
    if i > 0 {
      ReverseAt(s[..|s| - 1], i - 1);
    }
  }

  lemma {:induction false} DotPositionIsFirst(s: string)
    ensures var k := DotPosition(s);
            && (k == 0 <==> '.' !in s) && (k > 0 ==> s[k - 1] == '.' && '.' !in s[..k - 1])
  {
    if s != "" && s[0] != '.' {
      DotPositionIsFirst(s[1..]);
      assert s == [s[0]] + s[1..];
      var k := DotPosition(s);
      assert k > 0 ==> s[..k - 1] == [s[0]] + s[1..][..k - 2];
    }
  }

  /** The first dot of the reversed name is the last dot of the name. */
  lemma FirstIsLast(name: string, r: string, k: nat)
    requires |r| == |name| && forall i :: 0 <= i < |r| ==> r[i] == name[|name| - 1 - i]
    requires 0 < k <= |r| && r[k - 1] == '.' && '.' !in r[..k - 1]
    ensures name[|name| - k] == '.' && forall j :: |name| - k < j < |name| ==> name[j] != '.'
  {
    assert r[k - 1] == name[|name| - k];
    forall j | |name| - k < j < |name|
      ensures name[j] != '.'
    {
      assert r[..k - 1][|name| - 1 - j] == r[|name| - 1 - j] == name[j];
    }
  }

  lemma NoDotReversed(name: string)
    ensures '.' in name <==> '.' in Reverse(name)
  {
    forall i | 0 <= i < |name|
      ensures name[i] in Reverse(name) && Reverse(name)[i] in name
    {
      ReverseAt(name, i);
      ReverseAt(name, |name| - 1 - i);
    }
  }

  lemma SplitAtDot(name: string, at: nat)
    requires at < |name| && name[at] == '.' && forall j :: at < j < |name| ==> name[j] != '.'
    ensures name[..at] + name[at..] == name && DotSuffix(name[at..])
  {
    assert forall j :: 0 <= j < |name[at..][1..]| ==> name[at..][1..][j] == name[at + 1 + j];
  }

  lemma ReverseAll(name: string, r: string)
    requires r == Reverse(name)
    ensures forall i :: 0 <= i < |r| ==> r[i] == name[|name| - 1 - i]
  {
    forall i | 0 <= i < |r|
      ensures r[i] == name[|name| - 1 - i]
    {
      ReverseAt(name, i);
    }
  }

  /** Whatever the name, the migration splits it at its last dot, if it has one. */
  lemma SqlSplits(name: string)
    ensures SqlStem(name) + SqlExt(name) == name
    ensures if '.' in name then DotSuffix(SqlExt(name)) else SqlExt(name) == ""
  {
    var r := Reverse(name);
    var k := DotPosition(r);
    DotPositionIsFirst(r);
    NoDotReversed(name);
    if k > 0 {
      ReverseAll(name, r);
      FirstIsLast(name, r, k);
      SplitAtDot(name, |name| - k);
    }
  }

  // ---- filepath.Base ----------------------------------------------------------------------

  function TrimSlashes(s: string): (r: string)
    ensures r == "" || r[|r| - 1] != '/'
    ensures '/' !in s ==> r == s
  {
    if s != "" && s[|s| - 1] == '/' then TrimSlashes(s[..|s| - 1]) else s
  }

  function AfterLastSlash(s: string): (r: string)
    ensures '/' !in r
    ensures '/' !in s ==> r == s
    ensures s != "" && s[|s| - 1] != '/' ==> r != ""
  {
    if s == "" || s[|s| - 1] == '/' then ""
    else AfterLastSlash(s[..|s| - 1]) + [s[|s| - 1]]
  }

  /** filepath.Base on a slash-separated system. */
  function Base(path: string): string {
    if path == "" then "."
    else if TrimSlashes(path) == "" then "/"
    else AfterLastSlash(TrimSlashes(path))
  }

  /** A name an upload may store: what Create's two checks let through. */
  predicate PlainName(name: string) {
    name != "" && name != "." && '/' !in name
  }

  /** Create's checks on Base accept exactly the paths whose base is a plain name, and a
      plain name is its own base. */
  lemma BasePlain(path: string)
    ensures PlainName(Base(path)) <==> Base(path) != "." && Base(path) != "/"
    ensures PlainName(path) ==> Base(path) == path
  {
  }

  lemma {:induction false} TrimmedSlashes(s: string)
    ensures var t := TrimSlashes(s); t <= s && forall i :: |t| <= i < |s| ==> s[i] == '/'
  {
    if s != "" && s[|s| - 1] == '/' {
      TrimmedSlashes(s[..|s| - 1]);
    }
  }

  lemma {:induction false} AfterLastSlashEnds(s: string)
    ensures EndsAfterSlash(s, AfterLastSlash(s))
  {
    if s == "" || s[|s| - 1] == '/' {
      EmptyEnds(s);
    } else {
      var front, c := s[..|s| - 1], s[|s| - 1];
      AfterLastSlashEnds(front);
      EndLengthens(front, AfterLastSlash(front), c);
      Rejoined(s);
    }
  }

  lemma Rejoined(s: string)
    requires s != ""
    ensures s[..|s| - 1] + [s[|s| - 1]] == s
  {
  }

  lemma EmptyEnds(s: string)
    requires s == "" || s[|s| - 1] == '/'
    ensures EndsAfterSlash(s, "")
  {
  }

  ghost predicate EndsAfterSlash(s: string, t: string) {
    |t| <= |s| && s[|s| - |t|..] == t && (|t| < |s| ==> s[|s| - |t| - 1] == '/')
  }

  lemma EndLengthens(front: string, t: string, c: char)
    requires EndsAfterSlash(front, t)
    ensures EndsAfterSlash(front + [c], t + [c])
  {
    var at := |front| - |t|;
    assert (front + [c])[at..] == front[at..] + [c];
  }

  /** The path is this last element, after nothing or a slash and before nothing but slashes. */
  ghost predicate LastElement(path: string, base: string, at: nat) {
    && at + |base| <= |path| && path[at..at + |base|] == base && base != "" && '/' !in base
    && (at > 0 ==> path[at - 1] == '/') && forall i :: at + |base| <= i < |path| ==> path[i] == '/'
  }

  /** filepath.Base: "." for the empty path, "/" for slashes only, else the last element. */
  lemma BaseIs(path: string) returns (at: nat)
    ensures path == "" ==> Base(path) == "."
    ensures path != "" && (forall i :: 0 <= i < |path| ==> path[i] == '/') ==> Base(path) == "/"
    ensures (exists i :: 0 <= i < |path| && path[i] != '/') ==> LastElement(path, Base(path), at)
  {
    var t := TrimSlashes(path);
    TrimmedSlashes(path);
    at := if |AfterLastSlash(t)| <= |t| then |t| - |AfterLastSlash(t)| else 0;
    if t != "" {
      LastOfTrimmed(path, t);
    }
  }

  lemma LastOfTrimmed(path: string, t: string)
    requires t <= path && t != "" && t[|t| - 1] != '/' && forall i :: |t| <= i < |path| ==> path[i] == '/'
    ensures var base := AfterLastSlash(t); |base| <= |t| && LastElement(path, base, |t| - |base|)
  {
    var base := AfterLastSlash(t);
    AfterLastSlashEnds(t);
    assert path[..|t|] == t;
    assert path[|t| - |base|..|t|] == t[|t| - |base|..];
  }

  // ---- Conflict copies --------------------------------------------------------------------

  /** The inserted tag; `date` is a formatted calendar day, which has no dot. */
  function CopyTag(date: string): string {
    " (conflict copy, " + date + ")"
  }

  /** JavaScript's lastIndexOf('.'). */
  function LastIndexOfDot(s: string): (k: int)
    ensures -1 <= k < |s|
  {
    if s == "" then -1
    else if s[|s| - 1] == '.' then |s| - 1
    else LastIndexOfDot(s[..|s| - 1])
  }

  lemma {:induction false} LastIndexOfDotIsLast(s: string)
    ensures var k := LastIndexOfDot(s); (k >= 0 ==> s[k] == '.') && forall i :: k < i < |s| ==> s[i] != '.'
  {
    if s != "" && s[|s| - 1] != '.' {
      LastIndexOfDotIsLast(s[..|s| - 1]);
    }
  }

  function ConflictCopyName(name: string, date: string): string {
    var dot := LastIndexOfDot(name);
    if dot <= 0 then name + CopyTag(date)
    else name[..dot] + CopyTag(date) + "." + name[dot + 1..]
  }

  /** Recovers the original name from a conflict copy made on `date`. */
  function UncopyName(copy: string, date: string): string {
    var dot, n := LastIndexOfDot(copy), |CopyTag(date)|;
    if dot <= 0 then (if n <= |copy| then copy[..|copy| - n] else "")
    else (if n <= dot then copy[..dot - n] + copy[dot..] else "")
  }

  lemma LastIndexOfDotIs(s: string, k: int)
    requires -1 <= k < |s|
    requires k >= 0 ==> s[k] == '.'
    requires forall i :: k < i < |s| ==> s[i] != '.'
    ensures LastIndexOfDot(s) == k
  {
    LastIndexOfDotIsLast(s);
  }

  lemma CopyLonger(name: string, date: string)
    requires '.' !in date
    ensures |ConflictCopyName(name, date)| == |name| + |CopyTag(date)| && |CopyTag(date)| > 0
    ensures '.' !in CopyTag(date)
  {
  }

  lemma TagAtEnd(name: string, tag: string)
    requires '.' !in tag
    ensures LastIndexOfDot(name + tag) == LastIndexOfDot(name)
  {
    LastIndexOfDotIsLast(name);
    LastIndexOfDotIs(name + tag, LastIndexOfDot(name));
  }

  lemma TagShifts(stem: string, tag: string, ext: string, i: nat)
    requires i < |ext|
    ensures (stem + tag + ext)[|stem| + |tag| + i] == (stem + ext)[|stem| + i]
  {
  }

  lemma {:induction false} TagBeforeDot(stem: string, tag: string, ext: string)
    requires |ext| > 0 && LastIndexOfDot(stem + ext) == |stem|
    ensures LastIndexOfDot(stem + tag + ext) == |stem + tag|
  {
    LastIndexOfDotIsLast(stem + ext);
    TagShifts(stem, tag, ext, 0);
    var copy, at := stem + tag + ext, |stem| + |tag|;
    forall i | at < i < |copy|
      ensures copy[i] != '.'
    {
      TagShifts(stem, tag, ext, i - at);
    }
    LastIndexOfDotIs(copy, at);
  }

  /** Copy names are invertible, hence injective, and never the name itself. */
  lemma ConflictCopyInvertible(name: string, date: string)
    requires '.' !in date
    ensures UncopyName(ConflictCopyName(name, date), date) == name
    ensures ConflictCopyName(name, date) != name
  {
    CopyLonger(name, date);
    var dot := LastIndexOfDot(name);
    if dot <= 0 {
      CopyAtEnd(name, date);
    } else {
      SplitHere(name, dot);
      CopyBeforeDot(name[..dot], name[dot..], date);
    }
  }

  lemma SplitHere(s: string, k: nat)
    requires k <= |s|
    ensures s[..k] + s[k..] == s
  {
  }

  lemma CopyAtEnd(name: string, date: string)
    requires '.' !in CopyTag(date) && LastIndexOfDot(name) <= 0
    ensures UncopyName(ConflictCopyName(name, date), date) == name
  {
    TagAtEnd(name, CopyTag(date));
    assert (name + CopyTag(date))[..|name|] == name;
  }

  lemma {:induction false} CopyBeforeDot(stem: string, ext: string, date: string)
    requires |stem| > 0 && |ext| > 0 && LastIndexOfDot(stem + ext) == |stem|
    ensures UncopyName(ConflictCopyName(stem + ext, date), date) == stem + ext
  {
    CopyParts(stem, ext, date);
    UncopyParts(stem, CopyTag(date), ext, date);
  }

  lemma {:induction false} UncopyParts(stem: string, tag: string, ext: string, date: string)
    requires tag == CopyTag(date) && |stem| > 0 && |ext| > 0 && LastIndexOfDot(stem + ext) == |stem|
    ensures UncopyName(stem + tag + ext, date) == stem + ext
  {
    TagBeforeDot(stem, tag, ext);
    Untag(stem, tag, ext);
  }

  lemma {:induction false} CopyParts(stem: string, ext: string, date: string)
    requires |stem| > 0 && |ext| > 0 && LastIndexOfDot(stem + ext) == |stem|
    ensures ConflictCopyName(stem + ext, date) == stem + CopyTag(date) + ext
  {
    var name, rest := stem + ext, ext[1..];
    LastIndexOfDotIsLast(name);
    assert name[..|stem|] == stem && name[|stem| + 1..] == rest && ext == "." + rest;
    Associative(stem + CopyTag(date), ".", rest);
  }

  lemma Associative(a: string, b: string, c: string)
    ensures a + b + c == a + (b + c)
  {
  }

  lemma Untag(stem: string, tag: string, ext: string)
    ensures var copy := stem + tag + ext; copy[..|stem + tag| - |tag|] + copy[|stem + tag|..] == stem + ext
  {
  }

  lemma ConflictCopyInjective(a: string, b: string, date: string)
    requires '.' !in date
    requires ConflictCopyName(a, date) == ConflictCopyName(b, date)
    ensures a == b
  {
    ConflictCopyInvertible(a, date);
    ConflictCopyInvertible(b, date);
  }

  lemma CopyTagPlain(date: string)
    requires '/' !in date
    ensures '/' !in CopyTag(date) && |CopyTag(date)| > 2
  {
    var lead := " (conflict copy, ";
    assert '/' !in lead && |lead| > 2;
    assert CopyTag(date) == lead + date + ")";
  }

  /** A conflict copy can be uploaded under its own name whenever the original could. */
  lemma ConflictCopyPlain(name: string, date: string)
    requires PlainName(name) && '/' !in date
    ensures PlainName(ConflictCopyName(name, date))
  {
    var dot := LastIndexOfDot(name);
    CopyTagPlain(date);
    if dot > 0 {
      NoSlash(name[..dot], CopyTag(date), name[dot + 1..]);
      assert '/' !in name[..dot] && '/' !in name[dot + 1..];
    } else {
      NoSlash(name, CopyTag(date), "");
    }
  }

  lemma NoSlash(stem: string, tag: string, ext: string)
    requires '/' !in stem && '/' !in tag && '/' !in ext && |tag| > 2
    ensures PlainName(stem + tag) && PlainName(stem + tag + "." + ext)
  {
    assert '/' !in stem + tag && '/' !in stem + tag + "." && '/' !in stem + tag + "." + ext;
    assert |stem + tag| > 1 && |stem + tag + "." + ext| > 1;
  }

  /** The copy's name written out: the tag stands before the last dot, if that is not the first
      character, and at the end otherwise. */
  lemma CopyWithExtension(stem: string, ext: string, date: string)
    requires stem != "" && DotSuffix(ext)
    ensures ConflictCopyName(stem + ext, date) == stem + " (conflict copy, " + date + ")" + ext
  {
    var name := stem + ext;
    forall i | |stem| < i < |name|
      ensures name[i] != '.'
    {
      assert name[i] == ext[1..][i - |stem| - 1];
    }
    LastIndexOfDotIs(name, |stem|);
    CopyParts(stem, ext, date);
  }

  lemma CopyWithoutExtension(name: string, date: string)
    requires name == "" || '.' !in name[1..]
    ensures ConflictCopyName(name, date) == name + " (conflict copy, " + date + ")"
  {
    LastIndexOfDotIsLast(name);
    assert forall i :: 0 < i < |name| ==> name[i] == name[1..][i - 1];
  }
}
