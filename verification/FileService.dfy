/** FileService.Create's naming: a colliding upload takes the first free "base (n).ext". */
module FileService {
  import opened Basics
  import opened FileNames
  import opened Repo

  const MAX_NAME_DEDUP_ATTEMPTS: nat := 1000

  /** The name tried after `k` collisions. */
  function Candidate(base: string, k: nat): string {
    if k == 0 then base else DedupedName(base, k)
  }

  predicate Taken(files: seq<Row>, owner: nat, name: string) {
    FindName(files, owner, name).Some?
  }

  function OwnedNames(files: seq<Row>, owner: nat): set<string> {
    set r | r in files && r.owner == owner :: r.name
  }

  lemma TakenIff(files: seq<Row>, owner: nat, name: string)
    ensures Taken(files, owner, name) <==> name in OwnedNames(files, owner)
  {
  }

  /** The first of the candidates k, k + 1, ..., 1000 that is free. */
  function FirstFree(names: set<string>, base: string, k: nat): Option<nat>
    requires k <= MAX_NAME_DEDUP_ATTEMPTS + 1
    decreases MAX_NAME_DEDUP_ATTEMPTS + 1 - k, names
  {
    if k > MAX_NAME_DEDUP_ATTEMPTS then None
    else if Candidate(base, k) !in names then Some(k)
    else FirstFree(names, base, k + 1)
  }

  lemma {:induction false} FirstFreeIsLeast(names: set<string>, base: string, k: nat)
    requires k <= MAX_NAME_DEDUP_ATTEMPTS + 1
    ensures var r := FirstFree(names, base, k);
            && (r.Some? ==> k <= r.value <= MAX_NAME_DEDUP_ATTEMPTS && Candidate(base, r.value) !in names)
            && (r.Some? ==> forall j :: k <= j < r.value ==> Candidate(base, j) in names)
            && (r.None? ==> forall j :: k <= j <= MAX_NAME_DEDUP_ATTEMPTS ==> Candidate(base, j) in names)
    decreases MAX_NAME_DEDUP_ATTEMPTS + 1 - k
  {
    if k <= MAX_NAME_DEDUP_ATTEMPTS && Candidate(base, k) in names {
      FirstFreeIsLeast(names, base, k + 1);
    }
  }

  lemma {:induction false} FirstFreeWithin(names: set<string>, base: string, k: nat)
    requires k <= MAX_NAME_DEDUP_ATTEMPTS + 1
    ensures FirstFree(names, base, k).Some? ==> k <= FirstFree(names, base, k).value <= MAX_NAME_DEDUP_ATTEMPTS
    decreases MAX_NAME_DEDUP_ATTEMPTS + 1 - k
  {
    if k <= MAX_NAME_DEDUP_ATTEMPTS {
      FirstFreeWithin(names, base, k + 1);
    }
  }

  datatype CreateResult = Created(tables: Tables, row: Row) | InvalidFilename | NamesExhausted

  /** The effect of Create on the tables. */
  function CreateFile(s: Tables, owner: nat, filename: string, body: Content): CreateResult {
    if filename == "" || !PlainName(Base(filename)) then InvalidFilename
    else
      var base := Base(filename);
      match FirstFree(OwnedNames(s.files, owner), base, 0)
      case None => NamesExhausted
      case Some(k) => Created(Insert(s, owner, Candidate(base, k), body), NewRow(s, owner, Candidate(base, k), body))
  }

  lemma CandidateInjective(base: string, i: nat, j: nat)
    requires Candidate(base, i) == Candidate(base, j)
    ensures i == j
  {
    if i == 0 || j == 0 {
      DedupedDiffers(base, if i == 0 then j else i);
    } else {
      DedupedInjective(base, i, j);
    }
  }

  function Candidates(base: string, n: nat): set<string> {
    set k | 0 <= k < n :: Candidate(base, k)
  }

  lemma CandidatesGrow(base: string, n: nat)
    ensures Candidates(base, n + 1) == Candidates(base, n) + {Candidate(base, n)}
    ensures Candidate(base, n) !in Candidates(base, n)
  {
    if Candidate(base, n) in Candidates(base, n) {
      var k: nat :| k < n && Candidate(base, k) == Candidate(base, n);
      CandidateInjective(base, k, n);
    }
  }

  lemma {:induction false} CandidatesSize(base: string, n: nat)
    ensures |Candidates(base, n)| == n
  {
    if n > 0 {
      CandidatesSize(base, n - 1);
      CandidatesGrow(base, n - 1);
    }
  }

  /** Number `k` of the names tried for a base, written out: the base itself, then
      "stem (1).ext", "stem (2).ext" and so on; and whether the owner has it already. */
  ghost predicate NumberTaken(files: seq<Row>, owner: nat, base: string, k: nat) {
    exists r :: r in files && r.owner == owner
                && r.name == if k == 0 then base else Stem(base) + " (" + Decimal(k) + ")" + Ext(base)
  }

  lemma NumberTakenIff(files: seq<Row>, owner: nat, base: string, k: nat)
    ensures NumberTaken(files, owner, base, k) <==> Candidate(base, k) in OwnedNames(files, owner)
  {
  }

  /** An upload with a usable filename is refused exactly when every one of the 1001
      candidates is taken; so never while the owner has at most 1000 names. */
  lemma NamesExhaustedIff(s: Tables, owner: nat, filename: string, body: Content)
    requires filename != "" && PlainName(Base(filename))
    ensures CreateFile(s, owner, filename, body).NamesExhausted?
            <==> forall k: nat :: k <= 1000 ==> NumberTaken(s.files, owner, Base(filename), k)
    ensures |set r | r in s.files && r.owner == owner :: r.name| <= 1000 ==>
              CreateFile(s, owner, filename, body).Created?
  {
    var base, names, n := Base(filename), OwnedNames(s.files, owner), MAX_NAME_DEDUP_ATTEMPTS + 1;
    forall k: nat
      ensures NumberTaken(s.files, owner, base, k) <==> Candidate(base, k) in names
    {
      NumberTakenIff(s.files, owner, base, k);
    }
    assert names == set r | r in s.files && r.owner == owner :: r.name;
    FirstFreeIsLeast(names, base, 0);
    if FirstFree(names, base, 0).None? {
      assert Candidates(base, n) <= names;
      CandidatesSize(base, n);
      SubsetSize(Candidates(base, n), names);
    }
  }

  /** The name is number `k` of those tried for the base, for some k up to 1000; nobody has it,
      and all smaller numbers are taken. */
  ghost predicate LeastFree(files: seq<Row>, owner: nat, base: string, name: string) {
    exists k: nat ::
      && k <= 1000 && name == (if k == 0 then base else Stem(base) + " (" + Decimal(k) + ")" + Ext(base))
      && !NumberTaken(files, owner, base, k) && forall j: nat :: j < k ==> NumberTaken(files, owner, base, j)
  }

  lemma LeastFreeIs(files: seq<Row>, owner: nat, base: string, k: nat)
    requires FirstFree(OwnedNames(files, owner), base, 0) == Some(k)
    ensures LeastFree(files, owner, base, Candidate(base, k))
  {
    FirstFreeIsLeast(OwnedNames(files, owner), base, 0);
    NumberTakenIff(files, owner, base, k);
    forall j: nat | j < k
      ensures NumberTaken(files, owner, base, j)
    {
      NumberTakenIff(files, owner, base, j);
    }
  }

  /** A successful upload stores the bytes under the least free candidate, with the base's
      extension, and keeps the tables valid: (owner, name) stays unique. */
  lemma CreatePicksLeastFree(s: Tables, owner: nat, filename: string, body: Content)
    requires Valid(s) && CreateFile(s, owner, filename, body).Created?
    ensures var base, c := Base(filename), CreateFile(s, owner, filename, body);
            && LeastFree(s.files, owner, base, c.row.name)
            && !Taken(s.files, owner, c.row.name)
            && PlainName(c.row.name) && Ext(c.row.name) == Ext(base)
            && c.row.body == body && c.row.hash == Digest(body) && c.row.owner == owner
            && c.row.id > s.lastId && c.row.version > s.lastVersion
            && c.tables == Insert(s, owner, c.row.name, body)
            && Valid(c.tables) && (Hashed(s.files) ==> Hashed(c.tables.files))
  {
    var base, names := Base(filename), OwnedNames(s.files, owner);
    FirstFreeIsLeast(names, base, 0);
    var k := FirstFree(names, base, 0).value;
    LeastFreeIs(s.files, owner, base, k);
    TakenIff(s.files, owner, Candidate(base, k));
    InsertValid(s, owner, Candidate(base, k), body);
    CandidatePlain(base, k);
  }

  lemma CandidatePlain(base: string, k: nat)
    requires PlainName(base)
    ensures PlainName(Candidate(base, k)) && Ext(Candidate(base, k)) == Ext(base)
  {
    if k > 0 {
      DedupedKeepsExtension(base, k);
      assert |DedupedName(base, k)| > 1;
    }
  }

  /** A filename is refused exactly when it is empty or its base is a dot or a slash. */
  lemma InvalidFilenameIff(s: Tables, owner: nat, filename: string, body: Content)
    ensures CreateFile(s, owner, filename, body).InvalidFilename?
            <==> filename == "" || Base(filename) == "." || Base(filename) == "/"
  {
    BasePlain(filename);
  }

  /** A free plain name is used as it is. */
  lemma CreateFreeName(s: Tables, owner: nat, name: string, body: Content)
    requires PlainName(name) && !Taken(s.files, owner, name)
    ensures CreateFile(s, owner, name, body) == Created(Insert(s, owner, name, body), NewRow(s, owner, name, body))
  {
    BasePlain(name);
    TakenIff(s.files, owner, name);
  }

  /** A taken plain name is numbered, if that is free. */
  lemma CreateNumberedName(s: Tables, owner: nat, name: string, body: Content)
    requires PlainName(name) && Taken(s.files, owner, name) && !Taken(s.files, owner, DedupedName(name, 1))
    ensures var numbered := DedupedName(name, 1);
            CreateFile(s, owner, name, body)
            == Created(Insert(s, owner, numbered, body), NewRow(s, owner, numbered, body))
  {
    TakenIff(s.files, owner, name);
    TakenIff(s.files, owner, DedupedName(name, 1));
    SecondFree(OwnedNames(s.files, owner), name, 0);
    CreateCandidate(s, owner, name, body, 1);
  }

  lemma CreateCandidate(s: Tables, owner: nat, name: string, body: Content, k: nat)
    requires PlainName(name) && FirstFree(OwnedNames(s.files, owner), name, 0) == Some(k)
    ensures var candidate := Candidate(name, k);
            CreateFile(s, owner, name, body)
            == Created(Insert(s, owner, candidate, body), NewRow(s, owner, candidate, body))
  {
    BasePlain(name);
  }

  lemma SecondFree(names: set<string>, base: string, k: nat)
    requires k < MAX_NAME_DEDUP_ATTEMPTS && Candidate(base, k) in names && Candidate(base, k + 1) !in names
    ensures FirstFree(names, base, k) == Some(k + 1)
  {
    assert FirstFree(names, base, k) == FirstFree(names, base, k + 1);
  }

  /** One attempt: fails exactly when the name is taken. */
  method TryInsert(repo: FileRepo, owner: nat, name: string, body: Content) returns (created: Option<Row>)
    requires Valid(repo.State())
    modifies repo
    ensures Valid(repo.State())
    ensures name in OwnedNames(old(repo.files), owner) ==> created.None? && repo.State() == old(repo.State())
    ensures name !in OwnedNames(old(repo.files), owner) ==>
              && created == Some(NewRow(old(repo.State()), owner, name, body))
              && repo.State() == Insert(old(repo.State()), owner, name, body)
  {
    TakenIff(repo.files, owner, name);
    created := repo.Create(owner, name, body);
  }

  /** What the retry loop amounts to when insert number `errorAt` fails for another reason. */
  function InsertedFirstFree(s: Tables, owner: nat, base: string, body: Content, errorAt: nat): (Tables, Option<Row>) {
    var free := FirstFree(OwnedNames(s.files, owner), base, 0);
    if free.Some? && free.value < errorAt then
      var name := Candidate(base, free.value);
      (Insert(s, owner, name, body), Some(NewRow(s, owner, name, body)))
    else (s, None)
  }

  /** The loop comes to nothing exactly when every number before the failing insert, and up to
      1000, is taken, and then changes nothing; otherwise it inserts under the least free one. */
  lemma InsertErrorIff(s: Tables, owner: nat, base: string, body: Content, errorAt: nat)
    ensures var (t, created) := InsertedFirstFree(s, owner, base, body, errorAt);
            && (created.None? <==> forall k: nat :: k <= 1000 && k < errorAt ==> NumberTaken(s.files, owner, base, k))
            && (created.None? ==> t == s)
            && (created.Some? ==>
                  && LeastFree(s.files, owner, base, created.value.name) && t.files == s.files + [created.value]
                  && created.value.owner == owner && created.value.body == body)
  {
    var free := FirstFree(OwnedNames(s.files, owner), base, 0);
    FirstFreeIsLeast(OwnedNames(s.files, owner), base, 0);
    forall k: nat
      ensures NumberTaken(s.files, owner, base, k) <==> Candidate(base, k) in OwnedNames(s.files, owner)
    {
      NumberTakenIff(s.files, owner, base, k);
    }
    if free.Some? {
      LeastFreeIs(s.files, owner, base, free.value);
    }
  }

  /** The retry loop: insert, and on a name conflict number the base and try again. Insert
      number `errorAt`, counted from 0, fails for another reason. */
  method InsertFirstFree(repo: FileRepo, owner: nat, base: string, body: Content,
                         errorAt: nat := MAX_NAME_DEDUP_ATTEMPTS + 1) returns (created: Option<Row>)
    requires Valid(repo.State())
    modifies repo
    ensures Valid(repo.State())
    ensures (repo.State(), created) == InsertedFirstFree(old(repo.State()), owner, base, body, errorAt)
  {
    ghost var s := repo.State();
    ghost var names := OwnedNames(s.files, owner);
    var name, attempt := base, 1;
    created := None;
    while attempt <= MAX_NAME_DEDUP_ATTEMPTS + 1 && attempt - 1 != errorAt
      invariant 1 <= attempt <= MAX_NAME_DEDUP_ATTEMPTS + 2 && attempt - 1 <= errorAt
      invariant name == Candidate(base, attempt - 1)
      invariant repo.State() == s && created.None?
      invariant FirstFree(names, base, 0) == FirstFree(names, base, attempt - 1)
    {
      created := TryInsert(repo, owner, name, body);
      if created.Some? {
        assert FirstFree(names, base, 0) == Some(attempt - 1);
        return;
      }
      name := DedupedName(base, attempt);
      attempt := attempt + 1;
    }
    FirstFreeWithin(names, base, attempt - 1);
  }

  /** Create: check the filename, then insert under the first free name. */
  method CreateRow(repo: FileRepo, owner: nat, filename: string, body: Content) returns (created: Option<Row>)
    requires Valid(repo.State())
    modifies repo
    ensures Valid(repo.State())
    ensures var c := CreateFile(old(repo.State()), owner, filename, body);
            && (c.Created? ==> created == Some(c.row) && repo.State() == c.tables)
            && (!c.Created? ==> created.None? && repo.State() == old(repo.State()))
  {
    if filename == "" {
      return None;
    }
    var base := Base(filename);
    BasePlain(filename);
    if base == "." || base == "/" {
      return None;
    }
    FirstFreeWithin(OwnedNames(repo.files, owner), base, 0);
    created := InsertFirstFree(repo, owner, base, body);
  }
}
