/** States from which sync loses something: each failure that the theorems' conditions exclude,
    at a concrete input. */
module SyncLosses {
  import opened Basics
  import opened FileNames
  import opened Repo
  import opened FileService
  import opened SyncService
  import opened Cursor
  import opened Reconcile
  import opened ReconcileTable
  import opened ReconcilePass
  import opened SyncTheorems
  import opened FailedDeletes
  import opened SyncRuns
  import opened SyncOutcome
  import opened SyncRemovals
  import opened Resolve

  // ---- Passes over one name ---------------------------------------------------------------

  lemma NoNews(s: Tables, owner: nat, cursor: nat, manifest: map<string, Hash>)
    requires forall r :: r in s.files && r.owner == owner ==> r.version <= cursor
    requires forall d :: d in s.deletions && d.row.owner == owner ==> d.version <= cursor
    ensures DiffActions(s, owner, cursor, manifest) == [] && NewCursor(s, owner, cursor) == cursor
  {
    ChangedNone(s.files, owner, cursor);
    DeletedNone(s.deletions, owner, cursor);
  }

  /** A client that has seen everything gets no actions. */
  lemma QuietActions(env: Env, c: Client, s: Tables, budget: nat)
    requires forall r :: r in s.files && r.owner == c.owner ==> r.version <= c.cursor
    requires forall d :: d in s.deletions && d.row.owner == c.owner ==> d.version <= c.cursor
    ensures AfterActions(env, c, s, budget) == StartPass(c, s, budget) && NewCursor(s, c.owner, c.cursor) == c.cursor
  {
    NoNews(s, c.owner, c.cursor, ManifestOf(env.scan));
  }

  lemma UploadOnly(env: Env, p: Pass, n: string)
    requires n in env.scan
    ensures UploadAll(env, p, [n]) == UploadName(env, p, n)
  {
    assert [n][..0] == [];
  }

  lemma RemoveOnly(env: Env, p: Pass, n: string)
    ensures RemoveAll(env, p, [n]) == RemoveName(env, p, n)
  {
    assert [n][..0] == [];
  }

  lemma ApplyOnly(env: Env, p: Pass, a: Action)
    ensures ApplyActions(env, p, [a]) == ApplyAction(env, p, a)
  {
    assert [a][..0] == [];
  }

  lemma OneRowListed(row: Row)
    ensures FindName([row], row.owner, row.name) == Some(row)
    ensures LiveByName([row], row.owner) == map[row.name := row] && |LiveByName([row], row.owner)| == 1
  {
    assert OwnedNames([row], row.owner) == {row.name} by {
      assert row in [row];
    }
    assert LiveByName([row], row.owner) == map[row.name := row];
    assert |map[row.name := row]| == 1;
  }

  /** A server with one hashed row of a plain name. */
  lemma OneRowServerOk(row: Row, tombs: seq<Tomb>, lastId: nat, lastVersion: nat)
    requires row.hash == Digest(row.body) && PlainName(row.name)
    requires Valid(Tables([row], tombs, lastId, lastVersion))
    ensures ServerOk(Tables([row], tombs, lastId, lastVersion))
  {
  }

  /** A client that tracks the one row, if anything, and has no conflict. */
  lemma OneRowClientOk(c: Client, row: Row, tombs: seq<Tomb>, lastId: nat, lastVersion: nat)
    requires c.owner == row.owner && c.cursor <= lastVersion && c.conflicts == [] && row.hash == Digest(row.body)
    requires c.entries == map[] || c.entries == map[row.name := EntryFor(row.body, row.id)]
    requires forall n :: n in c.folder ==> PlainName(n)
    ensures ClientOk(c, Tables([row], tombs, lastId, lastVersion))
  {
    OneRowListed(row);
    assert EntryLive([row], row.owner, row.name, EntryFor(row.body, row.id));
  }

  lemma OneRowEnv(c: Client, row: Row, tombs: seq<Tomb>, lastId: nat, lastVersion: nat)
    requires c.owner == row.owner
    ensures var s := Tables([row], tombs, lastId, lastVersion);
            PassEnv(EnvOf(c, s, {}), c, s) && EnvOf(c, s, {}).remote == map[row.name := row]
  {
    OneRowListed(row);
  }

  lemma OneFile(n: string, content: Content)
    requires !Hidden(n)
    ensures Scan(map[n := content], {}) == map[n := content]
    ensures map[n := content].Keys == {n}
  {
  }

  lemma OneRowGone(row: Row, lastId: nat, lastVersion: nat)
    ensures Bury(Tables([row], [], lastId, lastVersion), row.owner, row.id)
            == Tables([], [Tomb(row, lastVersion + 1)], lastId, lastVersion + 1)
  {
    assert Without([row], row.id) == [];
  }

  /** A client without its content downloads the one row it has not seen. */
  lemma OneRowNews(row: Row, cursor: nat, manifest: map<string, Hash>, lastId: nat, lastVersion: nat)
    requires row.version > cursor && (row.hash == Unhashed || row.name !in manifest)
    ensures DiffActions(Tables([row], [], lastId, lastVersion), row.owner, cursor, manifest)
            == [Download(row.name, row.version)]
    ensures NewCursor(Tables([row], [], lastId, lastVersion), row.owner, cursor) == row.version
  {
    assert [row][..0] == [];
    assert Changed([row], row.owner, cursor) == [row];
    assert Deleted([], row.owner, cursor) == [];
    assert RowActions([row], manifest) == [Download(row.name, row.version)];
    assert MaxVersion([row], cursor) == row.version;
  }

  /** A row the client has in the same form yields no action. */
  lemma OneRowKnown(row: Row, cursor: nat, manifest: map<string, Hash>)
    requires row.version > cursor && row.hash != Unhashed && At(manifest, row.name) == Some(row.hash)
    ensures RowActions(Changed([row], row.owner, cursor), manifest) == []
  {
    assert [row][..0] == [];
    assert Changed([row], row.owner, cursor) == [row];
  }

  lemma OneTombNews(tomb: Tomb, cursor: nat)
    requires tomb.version > cursor
    ensures TombActions(Deleted([tomb], tomb.row.owner, cursor)) == [DeleteLocal(tomb.row.name, tomb.version)]
  {
    assert [tomb][..0] == [];
    assert Deleted([tomb], tomb.row.owner, cursor) == [tomb];
  }

  /** One tombstone, and no row that yields an action. */
  lemma OneTombDiff(files: seq<Row>, tomb: Tomb, cursor: nat, manifest: map<string, Hash>, lastId: nat,
                    lastVersion: nat)
    requires tomb.version > cursor && RowActions(Changed(files, tomb.row.owner, cursor), manifest) == []
    ensures DiffActions(Tables(files, [tomb], lastId, lastVersion), tomb.row.owner, cursor, manifest)
            == [DeleteLocal(tomb.row.name, tomb.version)]
  {
    OneTombNews(tomb, cursor);
  }

  // ---- A re-uploaded file -----------------------------------------------------------------

  const OLD_ROW := Row(1, 0, "a", [1], Digest([1]), 1)
  const NEW_ROW := Row(2, 0, "a", [2], Digest([2]), 3)

  /** A tracked file has been edited. */
  const EDITED_TABLES := Tables([OLD_ROW], [], 1, 1)
  const EDITED_CLIENT := Client(0, map["a" := [2]], map["a" := EntryFor([1], 1)], 1, [])

  /** What a pass makes of it: the file re-uploaded at versions 2 and 3, the cursor still 1. */
  const LOST_TABLES := Tables([NEW_ROW], [Tomb(OLD_ROW, 2)], 2, 3)
  const LOST_CLIENT := Client(0, map["a" := [2]], map["a" := EntryFor([2], 2)], 1, [])

  lemma EditedOk()
    ensures ServerOk(EDITED_TABLES) && ClientOk(EDITED_CLIENT, EDITED_TABLES)
    ensures PassEnv(EnvOf(EDITED_CLIENT, EDITED_TABLES, {}), EDITED_CLIENT, EDITED_TABLES)
    ensures EnvOf(EDITED_CLIENT, EDITED_TABLES, {}).scan == map["a" := [2]]
  {
    OneRowServerOk(OLD_ROW, [], 1, 1);
    OneRowClientOk(EDITED_CLIENT, OLD_ROW, [], 1, 1);
    OneRowEnv(EDITED_CLIENT, OLD_ROW, [], 1, 1);
    OneFile("a", [2]);
  }

  lemma EditedUploads(env: Env)
    requires env.scan == map["a" := [2]] && env.owner == 0
    ensures AfterUploads(env, EDITED_CLIENT, EDITED_TABLES, 1, ["a"])
            == Pass(map["a" := [2]], map["a" := EntryFor([2], 2)], [], LOST_TABLES,
                    {}, {}, {}, [Removal("a", 1)], 0, false)
  {
    var p := StartPass(EDITED_CLIENT, EDITED_TABLES, 1);
    QuietActions(env, EDITED_CLIENT, EDITED_TABLES, 1);
    UploadOnly(env, p, "a");
    EditedDelete(env);
    EditedPut(env, RemoteDelete(env, p, "a", 1));
    Reuploads(env, p, "a");
  }

  /** A changed, tracked file is deleted and uploaded again. */
  lemma Reuploads(env: Env, p: Pass, n: string)
    requires !p.aborted && n in env.scan && n !in p.conflicted && n !in p.deleted
    requires n in p.entries && !Matches(p.entries[n], env.scan[n])
    ensures UploadName(env, p, n) == PutFile(env, RemoteDelete(env, p, n, p.entries[n].remoteId), n)
  {
  }

  lemma EditedDelete(env: Env)
    requires env.owner == 0
    ensures RemoteDelete(env, StartPass(EDITED_CLIENT, EDITED_TABLES, 1), "a", 1)
            == Pass(map["a" := [2]], map["a" := EntryFor([1], 1)], [], Tables([], [Tomb(OLD_ROW, 2)], 1, 2),
                    {}, {}, {}, [Removal("a", 1)], 1, false)
  {
    OneRowGone(OLD_ROW, 1, 1);
    assert ConflictNames([]) == {};
  }

  lemma EditedPut(env: Env, p: Pass)
    requires env.scan == map["a" := [2]] && env.owner == 0
    requires p == Pass(map["a" := [2]], map["a" := EntryFor([1], 1)], [], Tables([], [Tomb(OLD_ROW, 2)], 1, 2),
                       {}, {}, {}, [Removal("a", 1)], 1, false)
    ensures PutFile(env, p, "a")
            == Pass(map["a" := [2]], map["a" := EntryFor([2], 2)], [], LOST_TABLES,
                    {}, {}, {}, [Removal("a", 1)], 0, false)
  {
    CreateFreeName(p.tables, 0, "a", [2]);
    assert Insert(p.tables, 0, "a", [2]) == LOST_TABLES;
    assert map["a" := EntryFor([1], 1)]["a" := EntryFor([2], 2)] == map["a" := EntryFor([2], 2)];
  }

  /** The lost state below is one that a completed pass leaves. */
  lemma ReuploadLeavesLost()
    ensures var env := EnvOf(EDITED_CLIENT, EDITED_TABLES, {});
            && Completed(env, EDITED_CLIENT, EDITED_TABLES, 1, ["a"], [])
            && RunPass(env, EDITED_CLIENT, EDITED_TABLES, 1, ["a"], []).tables == LOST_TABLES
            && ClientAfter(env, EDITED_CLIENT, EDITED_TABLES, 1, ["a"], []) == LOST_CLIENT
  {
    var env := EnvOf(EDITED_CLIENT, EDITED_TABLES, {});
    EditedOk();
    EditedRun(env);
    QuietActions(env, EDITED_CLIENT, EDITED_TABLES, 1);
  }

  lemma EditedRun(env: Env)
    requires env.scan == map["a" := [2]] && env.owner == 0
    ensures Orders(env, EDITED_CLIENT, EDITED_TABLES, 1, ["a"], [])
    ensures RunPass(env, EDITED_CLIENT, EDITED_TABLES, 1, ["a"], [])
            == Pass(map["a" := [2]], map["a" := EntryFor([2], 2)], [], LOST_TABLES,
                    {}, {}, {}, [Removal("a", 1)], 0, false)
  {
    EditedUploads(env);
    assert env.scan.Keys == {"a"};
    assert RemovedLocally(env, AfterUploads(env, EDITED_CLIENT, EDITED_TABLES, 1, ["a"])) == {};
  }

  lemma LostOk()
    ensures ServerOk(LOST_TABLES) && ClientOk(LOST_CLIENT, LOST_TABLES)
    ensures PassEnv(EnvOf(LOST_CLIENT, LOST_TABLES, {}), LOST_CLIENT, LOST_TABLES)
    ensures EnvOf(LOST_CLIENT, LOST_TABLES, {}).scan == map["a" := [2]]
  {
    OneRowServerOk(NEW_ROW, LOST_TABLES.deletions, 2, 3);
    OneRowClientOk(LOST_CLIENT, NEW_ROW, LOST_TABLES.deletions, 2, 3);
    OneRowEnv(LOST_CLIENT, NEW_ROW, LOST_TABLES.deletions, 2, 3);
    OneFile("a", [2]);
  }

  lemma LostActions(env: Env)
    requires env.scan == map["a" := [2]]
    ensures AfterActions(env, LOST_CLIENT, LOST_TABLES, 0)
            == Pass(map[], map[], [], LOST_TABLES, {}, {"a"}, {}, [], 0, false)
  {
    OneRowKnown(NEW_ROW, 1, ManifestOf(env.scan));
    OneTombDiff([NEW_ROW], Tomb(OLD_ROW, 2), 1, ManifestOf(env.scan), 2, 3);
    LostStart(env, StartPass(LOST_CLIENT, LOST_TABLES, 0));
  }

  lemma LostStart(env: Env, p: Pass)
    requires p == Pass(map["a" := [2]], map["a" := EntryFor([2], 2)], [], LOST_TABLES, {}, {}, {}, [], 0, false)
    ensures ApplyActions(env, p, [DeleteLocal("a", 2)])
            == Pass(map[], map[], [], LOST_TABLES, {}, {"a"}, {}, [], 0, false)
  {
    ApplyOnly(env, p, DeleteLocal("a", 2));
    assert map["a" := [2]] - {"a"} == map[] && map["a" := EntryFor([2], 2)] - {"a"} == map[];
  }

  lemma LostRun(env: Env)
    requires env.scan == map["a" := [2]]
    ensures Orders(env, LOST_CLIENT, LOST_TABLES, 0, ["a"], [])
    ensures RunPass(env, LOST_CLIENT, LOST_TABLES, 0, ["a"], [])
            == Pass(map[], map[], [], LOST_TABLES, {}, {"a"}, {}, [], 0, false)
  {
    LostActions(env);
    UploadOnly(env, AfterActions(env, LOST_CLIENT, LOST_TABLES, 0), "a");
    assert env.scan.Keys == {"a"};
    assert RemovedLocally(env, AfterUploads(env, LOST_CLIENT, LOST_TABLES, 0, ["a"])) == {};
  }

  /** The hypothesis of ReadableNamesConverge is needed: here a tracked file, equal on both
      sides and in no conflict, is lost by one pass. */
  lemma BuriedLiveNameIsLost()
    ensures var env, c, s := EnvOf(LOST_CLIENT, LOST_TABLES, {}), LOST_CLIENT, LOST_TABLES;
            && Completed(env, c, s, 0, ["a"], [])
            && Body(FindName(s.files, c.owner, "a")) == Some(c.folder["a"]) && c.conflicts == []
            && "a" !in RunPass(env, c, s, 0, ["a"], []).folder
            && !Converged(RunPass(env, c, s, 0, ["a"], []), c.owner, "a")
  {
    LostOk();
    LostRun(EnvOf(LOST_CLIENT, LOST_TABLES, {}));
    OneRowListed(NEW_ROW);
  }

  // ---- A delete that fails ----------------------------------------------------------------

  /** The same edit, but the delete before the upload fails: the file is stored as "a (1)", its
      entry claims to be about "a", and the old row stays. */
  lemma FailedDeleteMisnames()
    ensures var env, c, s := EnvOf(EDITED_CLIENT, EDITED_TABLES, {}), EDITED_CLIENT, EDITED_TABLES;
            var f := RunPassLosing(env, c, s, 1, ["a"], [], {"a"});
            && ServerOk(s) && ClientOk(c, s) && PassEnv(env, c, s) && OrdersLosing(env, c, s, 1, ["a"], [], {"a"})
            && !f.aborted && f.tables == Insert(s, 0, DedupedName("a", 1), [2])
            && f.entries == map["a" := EntryFor([2], 2)]
            && !ClientOk(ClientLosing(env, c, s, 1, ["a"], [], {"a"}, true), f.tables)
  {
    var env, c, s := EnvOf(EDITED_CLIENT, EDITED_TABLES, {}), EDITED_CLIENT, EDITED_TABLES;
    EditedOk();
    EditedLosing(env);
    LosingKeepsClientIff(env, c, s, 1, ["a"], [], {"a"}, true);
  }

  lemma EditedLosing(env: Env)
    requires env.scan == map["a" := [2]] && env.owner == 0
    ensures OrdersLosing(env, EDITED_CLIENT, EDITED_TABLES, 1, ["a"], [], {"a"})
    ensures var f := RunPassLosing(env, EDITED_CLIENT, EDITED_TABLES, 1, ["a"], [], {"a"});
            && !f.aborted && f.tables == Insert(EDITED_TABLES, 0, DedupedName("a", 1), [2])
            && f.entries == map["a" := EntryFor([2], 2)]
    ensures PassMisnames(env, EDITED_CLIENT, EDITED_TABLES, 1, ["a"], [], {"a"}, true)
  {
    QuietActions(env, EDITED_CLIENT, EDITED_TABLES, 1);
    EditedLosingUpload(env, StartPass(EDITED_CLIENT, EDITED_TABLES, 1));
    assert env.scan.Keys == {"a"};
    assert RemovedLocally(env, AfterUploadsLosing(env, EDITED_CLIENT, EDITED_TABLES, 1, ["a"], {"a"})) == {};
  }

  lemma EditedLosingUpload(env: Env, p: Pass)
    requires env.scan == map["a" := [2]] && env.owner == 0 && p == StartPass(EDITED_CLIENT, EDITED_TABLES, 1)
    ensures UploadAllLosing(env, p, ["a"], {"a"})
            == Pass(map["a" := [2]], map["a" := EntryFor([2], 2)], [],
                    Insert(EDITED_TABLES, 0, DedupedName("a", 1), [2]), {}, {}, {}, [Removal("a", 1)], 0, false)
    ensures Mistaken(env, p, ["a"], {"a"})
  {
    LosingOnly(env, p, "a", {"a"});
    EditedTaken();
    assert Replaces(env, p, "a");
    assert UploadNameLosing(env, p, "a", {"a"}) == PutFile(env, LostDelete(p, "a"), "a");
  }

  lemma LosingOnly(env: Env, p: Pass, n: string, lost: set<string>)
    requires n in env.scan
    ensures UploadAllLosing(env, p, [n], lost) == UploadNameLosing(env, p, n, lost)
    ensures Mistaken(env, p, [n], lost)
            <==> n in lost && Replaces(env, p, n) && !UploadNameLosing(env, p, n, lost).aborted
  {
    assert [n][..0] == [];
  }

  lemma EditedTaken()
    ensures CreateFile(EDITED_TABLES, 0, "a", [2])
            == Created(Insert(EDITED_TABLES, 0, DedupedName("a", 1), [2]),
                       NewRow(EDITED_TABLES, 0, DedupedName("a", 1), [2]))
  {
    OneRowListed(OLD_ROW);
    DedupedDiffers("a", 1);
    assert !Taken([OLD_ROW], 0, DedupedName("a", 1)) by {
      TakenIff([OLD_ROW], 0, DedupedName("a", 1));
    }
    CreateNumberedName(EDITED_TABLES, 0, "a", [2]);
  }

  // ---- A dotfile --------------------------------------------------------------------------

  const DOT_ROW := Row(1, 0, ".env", [7], Digest([7]), 1)
  const DOT_TABLES := Tables([DOT_ROW], [], 1, 1)
  const NEW_CLIENT := Client(0, map[], map[], 0, [])
  const DOT_CLIENT := Client(0, map[".env" := [7]], map[".env" := EntryFor([7], 1)], 1, [])
  const GONE_TABLES := Tables([], [Tomb(DOT_ROW, 2)], 1, 2)
  const FORGOT_CLIENT := Client(0, map[".env" := [7]], map[], 1, [])

  lemma DotOk(c: Client)
    requires c == NEW_CLIENT || c == DOT_CLIENT
    ensures ServerOk(DOT_TABLES) && ClientOk(c, DOT_TABLES)
    ensures var env := EnvOf(c, DOT_TABLES, {});
            PassEnv(env, c, DOT_TABLES) && env.scan == map[] && env.remote == map[".env" := DOT_ROW]
  {
    OneRowServerOk(DOT_ROW, [], 1, 1);
    OneRowClientOk(c, DOT_ROW, [], 1, 1);
    OneRowEnv(c, DOT_ROW, [], 1, 1);
  }

  lemma DotActions(env: Env)
    requires env.scan == map[] && env.owner == 0 && env.remote == map[".env" := DOT_ROW]
    ensures AfterActions(env, NEW_CLIENT, DOT_TABLES, 1)
            == Pass(map[".env" := [7]], map[".env" := EntryFor([7], 1)], [], DOT_TABLES, {}, {}, {".env"}, [], 0, false)
    ensures NewCursor(DOT_TABLES, 0, 0) == 1
  {
    OneRowNews(DOT_ROW, 0, ManifestOf(env.scan), 1, 1);
    ApplyOnly(env, StartPass(NEW_CLIENT, DOT_TABLES, 1), Download(".env", 1));
    assert ManifestOf(env.scan) == map[];
  }

  /** A pass downloads a dotfile to a new client, the next one deletes it from the server
      although it is still on disk, and the one after that removes it from the disk. */
  lemma DotfileDeleted()
    ensures var env := EnvOf(NEW_CLIENT, DOT_TABLES, {});
            && Completed(env, NEW_CLIENT, DOT_TABLES, 1, [], [])
            && RunPass(env, NEW_CLIENT, DOT_TABLES, 1, [], []).tables == DOT_TABLES
            && ClientAfter(env, NEW_CLIENT, DOT_TABLES, 1, [], []) == DOT_CLIENT
    ensures var env := EnvOf(DOT_CLIENT, DOT_TABLES, {});
            var f := RunPass(env, DOT_CLIENT, DOT_TABLES, 0, [], [".env"]);
            && Completed(env, DOT_CLIENT, DOT_TABLES, 0, [], [".env"])
            && f.tables == GONE_TABLES && f.removals == [Removal(".env", 1)] && f.folder == map[".env" := [7]]
            && ClientAfter(env, DOT_CLIENT, DOT_TABLES, 0, [], [".env"]) == FORGOT_CLIENT
    ensures var env := EnvOf(FORGOT_CLIENT, GONE_TABLES, {});
            && Completed(env, FORGOT_CLIENT, GONE_TABLES, 0, [], [])
            && RunPass(env, FORGOT_CLIENT, GONE_TABLES, 0, [], []).folder == map[]
            && RunPass(env, FORGOT_CLIENT, GONE_TABLES, 0, [], []).tables == GONE_TABLES
  {
    DotFirstPass();
    DotSecondPass();
    DotThirdPass();
  }

  lemma DotFirstPass()
    ensures var env := EnvOf(NEW_CLIENT, DOT_TABLES, {});
            && Completed(env, NEW_CLIENT, DOT_TABLES, 1, [], [])
            && RunPass(env, NEW_CLIENT, DOT_TABLES, 1, [], []).tables == DOT_TABLES
            && ClientAfter(env, NEW_CLIENT, DOT_TABLES, 1, [], []) == DOT_CLIENT
  {
    var env := EnvOf(NEW_CLIENT, DOT_TABLES, {});
    DotOk(NEW_CLIENT);
    DotActions(env);
    DotFirstRun(env);
  }

  lemma DotFirstRun(env: Env)
    requires env.scan == map[] && env.owner == 0 && env.remote == map[".env" := DOT_ROW]
    ensures Orders(env, NEW_CLIENT, DOT_TABLES, 1, [], [])
    ensures RunPass(env, NEW_CLIENT, DOT_TABLES, 1, [], [])
            == Pass(map[".env" := [7]], map[".env" := EntryFor([7], 1)], [], DOT_TABLES, {}, {}, {".env"}, [], 0, false)
  {
    DotActions(env);
    assert RemovedLocally(env, AfterUploads(env, NEW_CLIENT, DOT_TABLES, 1, [])) == {};
  }

  lemma DotSecondPass()
    ensures var env := EnvOf(DOT_CLIENT, DOT_TABLES, {});
            var f := RunPass(env, DOT_CLIENT, DOT_TABLES, 0, [], [".env"]);
            && Completed(env, DOT_CLIENT, DOT_TABLES, 0, [], [".env"])
            && f.tables == GONE_TABLES && f.removals == [Removal(".env", 1)] && f.folder == map[".env" := [7]]
            && ClientAfter(env, DOT_CLIENT, DOT_TABLES, 0, [], [".env"]) == FORGOT_CLIENT
  {
    DotOk(DOT_CLIENT);
    DotSecondRun(EnvOf(DOT_CLIENT, DOT_TABLES, {}));
    NoNews(DOT_TABLES, 0, 1, map[]);
  }

  lemma DotSecondRun(env: Env)
    requires env.scan == map[] && env.owner == 0 && env.unreadable == {}
    ensures Orders(env, DOT_CLIENT, DOT_TABLES, 0, [], [".env"])
    ensures var f := RunPass(env, DOT_CLIENT, DOT_TABLES, 0, [], [".env"]);
            && !f.aborted && f.tables == GONE_TABLES && f.removals == [Removal(".env", 1)]
            && f.folder == map[".env" := [7]] && f.entries == map[] && f.conflicts == []
  {
    var p := StartPass(DOT_CLIENT, DOT_TABLES, 0);
    QuietActions(env, DOT_CLIENT, DOT_TABLES, 0);
    RemoveOnly(env, p, ".env");
    OneRowGone(DOT_ROW, 1, 1);
    assert RemovedLocally(env, p) == {".env"};
  }

  lemma DotThirdPass()
    ensures var env := EnvOf(FORGOT_CLIENT, GONE_TABLES, {});
            && Completed(env, FORGOT_CLIENT, GONE_TABLES, 0, [], [])
            && RunPass(env, FORGOT_CLIENT, GONE_TABLES, 0, [], []).folder == map[]
            && RunPass(env, FORGOT_CLIENT, GONE_TABLES, 0, [], []).tables == GONE_TABLES
  {
    var env := EnvOf(FORGOT_CLIENT, GONE_TABLES, {});
    assert env.scan == map[] && env.remote == map[];
    DotThirdRun(env);
  }

  lemma DotThirdRun(env: Env)
    requires env.scan == map[] && env.owner == 0
    ensures Orders(env, FORGOT_CLIENT, GONE_TABLES, 0, [], [])
    ensures RunPass(env, FORGOT_CLIENT, GONE_TABLES, 0, [], [])
            == Pass(map[], map[], [], GONE_TABLES, {}, {".env"}, {}, [], 0, false)
  {
    GoneActions(env);
    assert RemovedLocally(env, AfterUploads(env, FORGOT_CLIENT, GONE_TABLES, 0, [])) == {};
  }

  lemma GoneActions(env: Env)
    requires env.scan == map[]
    ensures AfterActions(env, FORGOT_CLIENT, GONE_TABLES, 0)
            == Pass(map[], map[], [], GONE_TABLES, {}, {".env"}, {}, [], 0, false)
  {
    OneTombDiff([], Tomb(DOT_ROW, 2), 1, ManifestOf(env.scan), 1, 2);
    ApplyOnly(env, StartPass(FORGOT_CLIENT, GONE_TABLES, 0), DeleteLocal(".env", 2));
  }

  // ---- A folder switch over a row without a hash ------------------------------------------

  const UNHASHED_ROW := Row(1, 0, "a", [1], Unhashed, 1)
  const UNHASHED_TABLES := Tables([UNHASHED_ROW], [], 1, 1)

  lemma UnhashedActions(env: Env, c: Client)
    requires env.scan == map["a" := [2]] && env.owner == 0 && env.remote == map["a" := UNHASHED_ROW]
    requires c == Client(0, map["a" := [2]], map[], 0, [])
    ensures AfterActions(env, c, UNHASHED_TABLES, 2)
            == Pass(map["a" := [1]], map["a" := EntryFor([1], 1)], [], UNHASHED_TABLES, {}, {}, {"a"}, [], 1, false)
  {
    OneRowNews(UNHASHED_ROW, 0, ManifestOf(env.scan), 1, 1);
    ApplyOnly(env, StartPass(c, UNHASHED_TABLES, 2), Download("a", 1));
    assert map["a" := [2]]["a" := [1]] == map["a" := [1]];
  }

  lemma UnhashedUploads(env: Env, c: Client)
    requires env.scan == map["a" := [2]] && env.owner == 0 && env.remote == map["a" := UNHASHED_ROW]
    requires c == Client(0, map["a" := [2]], map[], 0, [])
    ensures var u := AfterUploads(env, c, UNHASHED_TABLES, 2, ["a"]);
            u.removals == [Removal("a", 1)] && !u.aborted && u.entries.Keys == {"a"}
  {
    var a := AfterActions(env, c, UNHASHED_TABLES, 2);
    UnhashedActions(env, c);
    UploadOnly(env, a, "a");
    Reuploads(env, a, "a");
    UnhashedPut(env, RemoteDelete(env, a, "a", 1));
  }

  lemma UnhashedPut(env: Env, p: Pass)
    requires env.scan == map["a" := [2]] && env.owner == 0 && !p.aborted && p.budget == 1
    requires p.folder == map["a" := [1]] && p.entries.Keys == {"a"} && p.removals == [Removal("a", 1)]
    requires p.tables == Bury(UNHASHED_TABLES, 0, 1)
    ensures var u := PutFile(env, p, "a"); u.removals == [Removal("a", 1)] && !u.aborted && u.entries.Keys == {"a"}
  {
    OneRowGone(UNHASHED_ROW, 1, 1);
    CreateFreeName(p.tables, 0, "a", [1]);
  }

  /** The first pass after selecting a folder with another "a" in it deletes the server's row. */
  lemma SwitchDeletesUnhashed(was: Client)
    requires was.owner == 0
    ensures var c, s := SelectFolder(was, map["a" := [2]]), UNHASHED_TABLES;
            var env := EnvOf(c, s, {});
            && PassEnv(env, c, s) && Orders(env, c, s, 2, ["a"], [])
            && !RunPass(env, c, s, 2, ["a"], []).aborted
            && RunPass(env, c, s, 2, ["a"], []).removals == [Removal("a", 1)]
            && UnhashedClash(env, s, 0, "a")
  {
    var c := SelectFolder(was, map["a" := [2]]);
    OneRowListed(UNHASHED_ROW);
    OneRowEnv(c, UNHASHED_ROW, [], 1, 1);
    OneFile("a", [2]);
    UnhashedRun(EnvOf(c, UNHASHED_TABLES, {}), c);
  }

  lemma UnhashedRun(env: Env, c: Client)
    requires env.scan == map["a" := [2]] && env.owner == 0 && env.remote == map["a" := UNHASHED_ROW]
    requires c == Client(0, map["a" := [2]], map[], 0, [])
    ensures Orders(env, c, UNHASHED_TABLES, 2, ["a"], [])
    ensures var f := RunPass(env, c, UNHASHED_TABLES, 2, ["a"], []); !f.aborted && f.removals == [Removal("a", 1)]
  {
    UnhashedUploads(env, c);
    assert env.scan.Keys == {"a"};
    assert RemovedLocally(env, AfterUploads(env, c, UNHASHED_TABLES, 2, ["a"])) == {};
  }

  // ---- A stale conflict -------------------------------------------------------------------

  const STALE_TABLES := Tables([Row(2, 0, "a", [5], Digest([5]), 3)], [Tomb(OLD_ROW, 2)], 2, 3)
  const STALE_CONFLICT := Conflict("a", 1, 1, 1)
  const STALE_CLIENT := Client(0, map["a" := [9]], map[], 1, [STALE_CONFLICT])

  /** The conflict is about a row that has been replaced. Keeping the local file stores it as
      "a (1)", and its entry claims to be about "a". */
  lemma StaleKeepLocalMisnames()
    ensures var x := Site(STALE_CLIENT, STALE_TABLES);
            var y := KeepLocal(x, STALE_CONFLICT, 1, true);
            && SiteOk(x) && STALE_CONFLICT in x.client.conflicts && !SiteOk(y)
            && y.tables == Insert(STALE_TABLES, 0, DedupedName("a", 1), [9])
            && y.client.entries == map["a" := EntryFor([9], 3)]
            && FindName(y.tables.files, 0, "a") == FindName(STALE_TABLES.files, 0, "a")
  {
    var x := Site(STALE_CLIENT, STALE_TABLES);
    StaleOk();
    StaleCreates();
    MineKeepsIff(x, STALE_CONFLICT, 1, true);
    StaleKept(x);
    assert STALE_CONFLICT in STALE_CLIENT.conflicts;
  }

  lemma StaleKept(x: Site)
    requires x == Site(STALE_CLIENT, STALE_TABLES)
    ensures var y := KeepLocal(x, STALE_CONFLICT, 1, true);
            && y.tables == Insert(STALE_TABLES, 0, DedupedName("a", 1), [9])
            && y.client.entries == map["a" := EntryFor([9], 3)]
            && FindName(y.tables.files, 0, "a") == FindName(STALE_TABLES.files, 0, "a")
  {
    StaleOk();
    StaleCreates();
    FindNameAppend(STALE_TABLES.files, NewRow(STALE_TABLES, 0, DedupedName("a", 1), [9]), 0, "a");
  }

  lemma StaleOk()
    ensures SiteOk(Site(STALE_CLIENT, STALE_TABLES)) && !StillCurrent(STALE_TABLES, 0, STALE_CONFLICT)
    ensures Bury(STALE_TABLES, 0, 1) == STALE_TABLES
  {
    var row := STALE_TABLES.files[0];
    OneRowServerOk(row, STALE_TABLES.deletions, 2, 3);
    StaleClientOk();
    OneRowListed(row);
  }

  lemma StaleClientOk()
    ensures ClientOk(STALE_CLIENT, STALE_TABLES)
  {
    assert STALE_TABLES.deletions[0] in STALE_TABLES.deletions;
    assert KnownRow(STALE_TABLES, 0, "a", 1);
  }

  lemma StaleCreates()
    ensures CreateFile(STALE_TABLES, 0, "a", [9])
            == Created(Insert(STALE_TABLES, 0, DedupedName("a", 1), [9]),
                       NewRow(STALE_TABLES, 0, DedupedName("a", 1), [9]))
  {
    var row := STALE_TABLES.files[0];
    OneRowListed(row);
    DedupedDiffers("a", 1);
    assert !Taken([row], 0, DedupedName("a", 1)) by {
      TakenIff([row], 0, DedupedName("a", 1));
    }
    CreateNumberedName(STALE_TABLES, 0, "a", [9]);
  }

  // ---- A second keep-both on one day ------------------------------------------------------

  /** The copy made earlier is still on disk, tracked and quiet. A second desktop keep-both of
      the name fails and removes it, and the next completed pass deletes it on the server. */
  lemma SecondCopyLost(x: Site, k: Conflict, date: string, budget: nat,
                       env: Env, budget2: nat, order: seq<string>, removals: seq<string>)
    requires var copy := ConflictCopyName(k.name, date);
             && copy in x.client.folder && copy in x.client.entries && copy !in ConflictNames(x.client.conflicts)
             && copy !in env.unreadable
             && (var w := WindowOf(x.tables, x.client.owner, x.client.cursor, copy); !w.changed && !w.buried)
    requires var copy := ConflictCopyName(k.name, date);
             Completed(env, DropCopy(x, copy).client, x.tables, budget2, order, removals)
    ensures var trace, copy := KeepBoth(x, k, date, budget, true), ConflictCopyName(k.name, date);
            var f := RunPass(env, DropCopy(x, copy).client, x.tables, budget2, order, removals);
            && trace[|trace| - 1] == DropCopy(x, copy)
            && FindName(x.tables.files, x.client.owner, copy).Some?
            && copy !in f.folder && copy !in f.entries && FindName(f.tables.files, x.client.owner, copy).None?
  {
    var copy := ConflictCopyName(k.name, date);
    var c := DropCopy(x, copy).client;
    PassFollowsTable(env, c, x.tables, budget2, order, removals, copy);
    ViewSane(env, c, x.tables, copy);
    var f := RunPass(env, c, x.tables, budget2, order, removals);
    assert SlotOf(f, copy).file == At(f.folder, copy) && SlotOf(f, copy).entry == At(f.entries, copy);
  }

  // Such a state: "a" is in conflict again, and the earlier edit [6] is in the copy.

  const REMOTE_ROW := Row(1, 0, "a", [5], Digest([5]), 1)

  function CopyOf(copy: string): Row {
    Row(2, 0, copy, [6], Digest([6]), 2)
  }

  function TwiceTables(copy: string): Tables {
    Tables([REMOTE_ROW, CopyOf(copy)], [], 2, 2)
  }

  function TwiceClient(copy: string): Client {
    Client(0, map["a" := [9], copy := [6]], map[copy := EntryFor([6], 2)], 2, [Conflict("a", 1, 1, 1)])
  }

  /** The client after the failed keep-both. */
  function FailedClient(copy: string): Client {
    Client(0, map["a" := [9]], map[copy := EntryFor([6], 2)], 2, [Conflict("a", 1, 1, 1)])
  }

  lemma TwiceListed(copy: string)
    requires copy != "a"
    ensures var files := TwiceTables(copy).files;
            && FindName(files, 0, "a") == Some(REMOTE_ROW) && FindName(files, 0, copy) == Some(CopyOf(copy))
            && LiveByName(files, 0) == map["a" := REMOTE_ROW, copy := CopyOf(copy)]
            && |LiveByName(files, 0)| == 2
  {
    var files := TwiceTables(copy).files;
    assert files[0] == REMOTE_ROW && files[1..] == [CopyOf(copy)];
    assert OwnedNames(files, 0) == {"a", copy} by {
      assert files[0] in files && files[1] in files;
    }
    assert LiveByName(files, 0).Keys == {"a", copy};
    assert |map["a" := REMOTE_ROW, copy := CopyOf(copy)]| == 2;
  }

  lemma TwiceServerOk(copy: string)
    requires copy != "a" && PlainName(copy)
    ensures ServerOk(TwiceTables(copy))
  {
    var files := TwiceTables(copy).files;
    assert forall r :: r in files <==> r == REMOTE_ROW || r == CopyOf(copy);
  }

  lemma TwiceClientsOk(copy: string)
    requires copy != "a" && PlainName(copy)
    ensures ClientOk(TwiceClient(copy), TwiceTables(copy)) && ClientOk(FailedClient(copy), TwiceTables(copy))
  {
    TwiceListed(copy);
    assert EntryLive(TwiceTables(copy).files, 0, copy, EntryFor([6], 2));
    assert REMOTE_ROW in TwiceTables(copy).files;
  }

  lemma TwiceRun(env: Env, copy: string)
    requires copy != "a" && env.scan == map["a" := [9]] && env.unreadable == {} && env.owner == 0
    ensures Orders(env, FailedClient(copy), TwiceTables(copy), 0, ["a"], [copy])
    ensures var f := RunPass(env, FailedClient(copy), TwiceTables(copy), 0, ["a"], [copy]);
            !f.aborted && f.folder == map["a" := [9]] && f.tables.files == [REMOTE_ROW]
  {
    var c, s := FailedClient(copy), TwiceTables(copy);
    var p := StartPass(c, s, 0);
    QuietActions(env, c, s, 0);
    assert c.conflicts[0] in c.conflicts;
    UploadOnly(env, p, "a");
    RemoveOnly(env, p, copy);
    assert env.scan.Keys == {"a"};
    assert RemovedLocally(env, p) == {copy} by {
      assert ConflictNames(c.conflicts) == {"a"};
    }
    TwiceBuried(copy);
  }

  lemma TwiceBuried(copy: string)
    ensures Bury(TwiceTables(copy), 0, 2).files == [REMOTE_ROW]
  {
    var files := TwiceTables(copy).files;
    assert files[1..] == [CopyOf(copy)];
    assert FindId(files[1..], 0, 2) == Some(CopyOf(copy));
    assert files[..|files| - 1] == [REMOTE_ROW] && [REMOTE_ROW][..0] == [];
    assert Without([REMOTE_ROW], 2) == [REMOTE_ROW];
  }

  /** There the earlier edit is gone from both sides in the end. */
  lemma SecondKeepBothLosesFirst(date: string)
    requires '.' !in date && '/' !in date
    ensures var copy := ConflictCopyName("a", date);
            var x, k := Site(TwiceClient(copy), TwiceTables(copy)), Conflict("a", 1, 1, 1);
            var trace := KeepBoth(x, k, date, 2, true);
            var y := trace[|trace| - 1];
            var env := EnvOf(y.client, y.tables, {});
            && SiteOk(x) && k in x.client.conflicts && x.client.folder[copy] == [6]
            && Completed(env, y.client, y.tables, 0, ["a"], [copy])
            && (var f := RunPass(env, y.client, y.tables, 0, ["a"], [copy]);
                f.folder == map["a" := [9]] && f.tables.files == [REMOTE_ROW])
  {
    var copy := ConflictCopyName("a", date);
    ConflictCopyInvertible("a", date);
    ConflictCopyPlain("a", date);
    TwiceStart(copy);
    TwiceFails(date);
    TwiceCompleted(copy);
  }

  lemma TwiceStart(copy: string)
    requires copy != "a" && PlainName(copy)
    ensures SiteOk(Site(TwiceClient(copy), TwiceTables(copy)))
    ensures Conflict("a", 1, 1, 1) in TwiceClient(copy).conflicts
  {
    TwiceServerOk(copy);
    TwiceClientsOk(copy);
    assert TwiceClient(copy).conflicts[0] == Conflict("a", 1, 1, 1);
  }

  lemma TwiceFails(date: string)
    requires ConflictCopyName("a", date) != "a"
    ensures var copy := ConflictCopyName("a", date);
            KeepBoth(Site(TwiceClient(copy), TwiceTables(copy)), Conflict("a", 1, 1, 1), date, 2, true)
            == [Site(TwiceClient(copy), TwiceTables(copy)), Site(FailedClient(copy), TwiceTables(copy))]
  {
    var copy := ConflictCopyName("a", date);
    assert DropCopy(Site(TwiceClient(copy), TwiceTables(copy)), copy).client == FailedClient(copy);
  }

  lemma TwiceCompleted(copy: string)
    requires copy != "a" && PlainName(copy)
    ensures var c, s := FailedClient(copy), TwiceTables(copy);
            var env := EnvOf(c, s, {});
            && Completed(env, c, s, 0, ["a"], [copy])
            && (var f := RunPass(env, c, s, 0, ["a"], [copy]);
                f.folder == map["a" := [9]] && f.tables.files == [REMOTE_ROW])
  {
    var env := EnvOf(FailedClient(copy), TwiceTables(copy), {});
    TwiceListed(copy);
    TwiceServerOk(copy);
    TwiceClientsOk(copy);
    assert env.scan == map["a" := [9]];
    TwiceRun(env, copy);
  }

  /** A third keep-both, now that the copy is off the disk but its name still taken on the
      server, stores the new copy under a numbered name and records it under the plain one. */
  lemma CopyNameTaken(date: string)
    requires '.' !in date && '/' !in date
    ensures var copy := ConflictCopyName("a", date);
            var x, k := Site(FailedClient(copy), TwiceTables(copy)), Conflict("a", 1, 1, 1);
            var trace := KeepBoth(x, k, date, 2, true);
            var y := trace[|trace| - 1];
            && SiteOk(x) && k in x.client.conflicts && !SiteOk(y)
            && y.tables == Insert(x.tables, 0, DedupedName(copy, 1), [9])
            && y.client.entries == map[copy := EntryFor([9], 3), "a" := EntryFor([5], 1)]
  {
    var copy := ConflictCopyName("a", date);
    var x, k := Site(FailedClient(copy), TwiceTables(copy)), Conflict("a", 1, 1, 1);
    ConflictCopyInvertible("a", date);
    ConflictCopyPlain("a", date);
    ThirdStart(copy);
    ThirdCreates(copy);
    ThirdKept(date);
    BothKeepsIff(x, k, date, 2, true);
  }

  lemma ThirdStart(copy: string)
    requires copy != "a" && PlainName(copy)
    ensures SiteOk(Site(FailedClient(copy), TwiceTables(copy)))
    ensures Conflict("a", 1, 1, 1) in FailedClient(copy).conflicts
    ensures FindName(TwiceTables(copy).files, 0, copy).Some?
  {
    TwiceServerOk(copy);
    TwiceClientsOk(copy);
    TwiceListed(copy);
    assert FailedClient(copy).conflicts[0] == Conflict("a", 1, 1, 1);
  }

  lemma ThirdCreates(copy: string)
    requires copy != "a" && PlainName(copy) && |copy| > 4
    ensures CreateFile(TwiceTables(copy), 0, copy, [9])
            == Created(Insert(TwiceTables(copy), 0, DedupedName(copy, 1), [9]),
                       NewRow(TwiceTables(copy), 0, DedupedName(copy, 1), [9]))
  {
    var files := TwiceTables(copy).files;
    TwiceListed(copy);
    DedupedDiffers(copy, 1);
    DedupedLonger(copy);
    assert !Taken(files, 0, DedupedName(copy, 1)) by {
      TakenIff(files, 0, DedupedName(copy, 1));
    }
    CreateNumberedName(TwiceTables(copy), 0, copy, [9]);
  }

  lemma DedupedLonger(copy: string)
    requires |copy| > 4
    ensures DedupedName(copy, 1) != "a"
  {
  }

  lemma ThirdKept(date: string)
    requires var copy := ConflictCopyName("a", date);
             && copy != "a" && PlainName(copy)
             && CreateFile(TwiceTables(copy), 0, copy, [9])
                == Created(Insert(TwiceTables(copy), 0, DedupedName(copy, 1), [9]),
                           NewRow(TwiceTables(copy), 0, DedupedName(copy, 1), [9]))
    ensures var copy := ConflictCopyName("a", date);
            var x, k := Site(FailedClient(copy), TwiceTables(copy)), Conflict("a", 1, 1, 1);
            var trace := KeepBoth(x, k, date, 2, true);
            var y := trace[|trace| - 1];
            && CopyRecorded(x, k, copy, 2, true)
            && y.tables == Insert(x.tables, 0, DedupedName(copy, 1), [9])
            && y.client.entries == map[copy := EntryFor([9], 3), "a" := EntryFor([5], 1)]
  {
    var copy := ConflictCopyName("a", date);
    var x, k := Site(FailedClient(copy), TwiceTables(copy)), Conflict("a", 1, 1, 1);
    var row := NewRow(x.tables, 0, DedupedName(copy, 1), [9]);
    var sent := WriteFile(x, copy, [9]).(tables := Insert(x.tables, 0, DedupedName(copy, 1), [9]));
    FindIdAppend(x.tables.files, row, 0, 1);
    TwiceFindId(copy);
    TraceEnds(x, k, date, 2, true);
    LastFinishes(sent, k, copy, [9], row, REMOTE_ROW);
    ThirdEntries(sent, k, copy, row);
  }

  lemma TwiceFindId(copy: string)
    ensures FindId(TwiceTables(copy).files, 0, 1) == Some(REMOTE_ROW)
  {
  }

  lemma LastFinishes(sent: Site, k: Conflict, copy: string, edit: Content, row: Row, remote: Row)
    requires FindId(sent.tables.files, sent.client.owner, k.remoteId) == Some(remote)
    ensures var rest := AfterUpload(sent, k, copy, edit, row, 1, true);
            rest[|rest| - 1] == Finish(SetEntry(sent, copy, EntryFor(edit, row.id)), k, copy, edit, row, remote)
  {
  }

  lemma ThirdEntries(sent: Site, k: Conflict, copy: string, row: Row)
    requires sent.client.entries == map[copy := EntryFor([6], 2)] && k == Conflict("a", 1, 1, 1) && row.id == 3
    requires copy != "a"
    ensures var y := Finish(SetEntry(sent, copy, EntryFor([9], 3)), k, copy, [9], row, REMOTE_ROW);
            && y.tables == sent.tables
            && y.client.entries == map[copy := EntryFor([9], 3), "a" := EntryFor([5], 1)]
  {
  }
}
