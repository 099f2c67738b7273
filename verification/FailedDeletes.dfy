/** Passes in which best-effort deletes fail unseen: the client goes on as if the row were gone.
    When it then uploads the name, the server stores the file under a numbered one. */
module FailedDeletes {
  import opened Basics
  import opened FileNames
  import opened Repo
  import opened FileService
  import opened SyncService
  import opened Cursor
  import opened Reconcile
  import opened ReconcileTable
  import opened ReconcilePass
  import opened SyncTheorems
  import opened PassInvariant

  // `lost` are the names whose delete fails; a pass makes at most one delete for a name.

  /** A deleteFile call that has been swallowed: it was made, and the row stays. */
  function LostDelete(p: Pass, name: string): Pass
    requires name in p.entries
  {
    p.(removals := p.removals + [Removal(name, p.entries[name].remoteId)])
  }

  /** The round of the upload loop that deletes and uploads again. */
  predicate Replaces(env: Env, p: Pass, name: string)
    requires name in env.scan
  {
    && !p.aborted && name !in p.conflicted && name !in p.deleted
    && name in p.entries && !Matches(p.entries[name], env.scan[name])
  }

  function UploadNameLosing(env: Env, p: Pass, name: string, lost: set<string>): Pass
    requires name in env.scan
  {
    if name in lost && Replaces(env, p, name) then PutFile(env, LostDelete(p, name), name)
    else UploadName(env, p, name)
  }

  function UploadAllLosing(env: Env, p: Pass, order: seq<string>, lost: set<string>): Pass
    requires forall n :: n in order ==> n in env.scan
  {
    if order == [] then p
    else UploadNameLosing(env, UploadAllLosing(env, p, order[..|order| - 1], lost), order[|order| - 1], lost)
  }

  function RemoveNameLosing(env: Env, p: Pass, name: string, lost: set<string>): Pass {
    if name in lost && !p.aborted && name in p.entries then LostDelete(p, name).(entries := p.entries - {name})
    else RemoveName(env, p, name)
  }

  function RemoveAllLosing(env: Env, p: Pass, order: seq<string>, lost: set<string>): Pass {
    if order == [] then p
    else RemoveNameLosing(env, RemoveAllLosing(env, p, order[..|order| - 1], lost), order[|order| - 1], lost)
  }

  function AfterUploadsLosing(env: Env, c: Client, s: Tables, budget: nat, order: seq<string>, lost: set<string>): Pass
    requires forall n :: n in order ==> n in env.scan
  {
    UploadAllLosing(env, AfterActions(env, c, s, budget), order, lost)
  }

  function RunPassLosing(env: Env, c: Client, s: Tables, budget: nat, order: seq<string>, removals: seq<string>,
                         lost: set<string>): Pass
    requires forall n :: n in order ==> n in env.scan
  {
    RemoveAllLosing(env, AfterUploadsLosing(env, c, s, budget, order, lost), removals, lost)
  }

  /** What the client is left with, as in DesktopAfter and WebAfter. */
  function ClientLosing(env: Env, c: Client, s: Tables, budget: nat, order: seq<string>, removals: seq<string>,
                        lost: set<string>, desktop: bool): Client
    requires forall n :: n in order ==> n in env.scan
  {
    var f := RunPassLosing(env, c, s, budget, order, removals, lost);
    if f.aborted && !desktop then c.(folder := f.folder)
    else
      var cursor := if AfterActions(env, c, s, budget).aborted then c.cursor else NewCursor(s, c.owner, c.cursor);
      Client(c.owner, f.folder, f.entries, cursor, f.conflicts)
  }

  ghost predicate OrdersLosing(env: Env, c: Client, s: Tables, budget: nat, order: seq<string>, removals: seq<string>,
                               lost: set<string>) {
    && Visits(order, env.scan.Keys)
    && Visits(removals, RemovedLocally(env, AfterUploadsLosing(env, c, s, budget, order, lost)))
  }

  /** Some round's delete failed and its upload went through. */
  ghost predicate Mistaken(env: Env, p: Pass, order: seq<string>, lost: set<string>)
    requires forall n :: n in order ==> n in env.scan
  {
    order != []
    && (var front, n := order[..|order| - 1], order[|order| - 1];
        || Mistaken(env, p, front, lost)
        || (n in lost && Replaces(env, UploadAllLosing(env, p, front, lost), n)
            && !UploadAllLosing(env, p, order, lost).aborted))
  }

  // ---- When no delete fails ---------------------------------------------------------------

  lemma {:induction false} UploadsLosingNothing(env: Env, p: Pass, order: seq<string>)
    requires forall n :: n in order ==> n in env.scan
    ensures UploadAllLosing(env, p, order, {}) == UploadAll(env, p, order) && !Mistaken(env, p, order, {})
  {
    if order != [] {
      UploadsLosingNothing(env, p, order[..|order| - 1]);
    }
  }

  lemma {:induction false} RemovalsLosingNothing(env: Env, p: Pass, order: seq<string>)
    ensures RemoveAllLosing(env, p, order, {}) == RemoveAll(env, p, order)
  {
    if order != [] {
      RemovalsLosingNothing(env, p, order[..|order| - 1]);
    }
  }

  /** These are the passes of Reconcile when no delete fails. */
  lemma LosingNothing(env: Env, c: Client, s: Tables, budget: nat, order: seq<string>, removals: seq<string>)
    requires forall n :: n in order ==> n in env.scan
    ensures RunPassLosing(env, c, s, budget, order, removals, {}) == RunPass(env, c, s, budget, order, removals)
    ensures ClientLosing(env, c, s, budget, order, removals, {}, true)
            == DesktopAfter(env, c, s, budget, order, removals)
    ensures ClientLosing(env, c, s, budget, order, removals, {}, false) == WebAfter(env, c, s, budget, order, removals)
  {
    UploadsLosingNothing(env, AfterActions(env, c, s, budget), order);
    RemovalsLosingNothing(env, AfterUploads(env, c, s, budget, order), removals);
    AbortedStays(env, AfterActions(env, c, s, budget), order, removals);
  }

  // ---- Up to the first mistake ------------------------------------------------------------

  lemma {:induction false} AbortedStaysLosing(env: Env, p: Pass, order: seq<string>, lost: set<string>)
    requires p.aborted && forall n :: n in order ==> n in env.scan
    ensures UploadAllLosing(env, p, order, lost) == p && !Mistaken(env, p, order, lost)
  {
    if order != [] {
      AbortedStaysLosing(env, p, order[..|order| - 1], lost);
    }
  }

  lemma {:induction false} AbortedRemovals(env: Env, p: Pass, order: seq<string>, lost: set<string>)
    requires p.aborted
    ensures RemoveAllLosing(env, p, order, lost) == p
  {
    if order != [] {
      AbortedRemovals(env, p, order[..|order| - 1], lost);
    }
  }

  /** Until then, and unless it aborts, the pass is as if all deletes had worked. */
  lemma {:induction false} SameUnlessMistaken(env: Env, p: Pass, order: seq<string>, lost: set<string>)
    requires forall n :: n in order ==> n in env.scan
    requires !Mistaken(env, p, order, lost) && !UploadAllLosing(env, p, order, lost).aborted
    ensures UploadAllLosing(env, p, order, lost) == UploadAll(env, p, order)
  {
    if order != [] {
      SameUnlessMistaken(env, p, order[..|order| - 1], lost);
    }
  }

  /** A delete that fails before an upload that fails changes neither tables nor entries. */
  lemma LostAborts(env: Env, f: Pass, n: string, lost: set<string>)
    requires n in env.scan && n in lost && Replaces(env, f, n) && UploadNameLosing(env, f, n, lost).aborted
    ensures var q := UploadNameLosing(env, f, n, lost); q.tables == f.tables && q.entries == f.entries
  {
  }

  lemma {:induction false} UploadsTracked(env: Env, p: Pass, order: seq<string>, lost: set<string>, since: nat)
    requires !p.aborted && Settled(env, p) && since <= p.tables.lastVersion
    requires Distinct(order) && forall n :: n in order ==> n in env.scan && Uploadable(env, p, n)
    requires !Mistaken(env, p, order, lost)
    ensures var q := UploadAllLosing(env, p, order, lost);
            Tracked(q.tables, env.owner, since, q.entries) && (!q.aborted ==> Settled(env, q))
  {
    LiveIsTracked(p.tables, env.owner, since, p.entries);
    if order != [] {
      var front, n := order[..|order| - 1], order[|order| - 1];
      FrontOfDistinct(order);
      UploadsTracked(env, p, front, lost, since);
      if !UploadAllLosing(env, p, front, lost).aborted {
        SameUnlessMistaken(env, p, front, lost);
        UploadAllNames(env, p, front, n, since);
        UploadableStill(env, p, UploadAll(env, p, front), n, since);
        RoundTracked(env, UploadAll(env, p, front), n, lost, since);
      }
    }
  }

  lemma RoundTracked(env: Env, f: Pass, n: string, lost: set<string>, since: nat)
    requires !f.aborted && Settled(env, f) && Uploadable(env, f, n) && since <= f.tables.lastVersion
    requires n in lost && Replaces(env, f, n) ==> UploadNameLosing(env, f, n, lost).aborted
    ensures var q := UploadNameLosing(env, f, n, lost);
            Tracked(q.tables, env.owner, since, q.entries) && (!q.aborted ==> Settled(env, q))
  {
    if n in lost && Replaces(env, f, n) {
      LostAborts(env, f, n, lost);
      LiveIsTracked(f.tables, env.owner, since, f.entries);
    } else {
      UploadStep(env, f, n, since);
    }
  }

  // ---- After a mistake --------------------------------------------------------------------

  /** The name's entry is about a live row of another name, and no other entry is. */
  ghost predicate Astray(p: Pass, m: string) {
    && m in p.entries
    && (exists r :: r in p.tables.files && r.id == p.entries[m].remoteId && r.name != m)
    && (forall k :: k in p.entries && k != m ==> p.entries[k].remoteId != p.entries[m].remoteId)
  }

  lemma AstrayUntracked(p: Pass, owner: nat, since: nat, m: string)
    requires Valid(p.tables) && Astray(p, m)
    ensures !Tracked(p.tables, owner, since, p.entries)
  {
    var r :| r in p.tables.files && r.id == p.entries[m].remoteId && r.name != m;
    assert !EntryLive(p.tables.files, owner, m, p.entries[m]);
    assert !EntryBuried(p.tables.deletions, owner, m, p.entries[m], since);
  }

  /** A file whose name is taken is stored under another. */
  lemma CreatedElsewhere(s: Tables, owner: nat, n: string, body: Content)
    requires Valid(s) && FindName(s.files, owner, n).Some? && CreateFile(s, owner, n, body).Created?
    ensures var c := CreateFile(s, owner, n, body);
            c.row.name != n && c.row.id > s.lastId && c.tables.files == s.files + [c.row]
  {
    CreatePicksLeastFree(s, owner, n, body);
  }

  lemma MistakeAdds(env: Env, f: Pass, n: string, lost: set<string>)
    requires Settled(env, f) && Uploadable(env, f, n)
    requires n in lost && Replaces(env, f, n) && !UploadNameLosing(env, f, n, lost).aborted
    ensures var c, q := CreateFile(f.tables, env.owner, n, f.folder[n]), UploadNameLosing(env, f, n, lost);
            && c.Created? && c.row.name != n && c.row.id > f.tables.lastId
            && q.tables.files == f.tables.files + [c.row]
            && q.entries == f.entries[n := EntryFor(env.scan[n], c.row.id)]
  {
    assert EntryLive(f.tables.files, env.owner, n, f.entries[n]);
    CreatedElsewhere(f.tables, env.owner, n, f.folder[n]);
  }

  /** The mistake itself: the name is taken by the row that was not deleted. */
  lemma MistakeAstray(env: Env, f: Pass, n: string, lost: set<string>)
    requires Settled(env, f) && Uploadable(env, f, n)
    requires n in lost && Replaces(env, f, n) && !UploadNameLosing(env, f, n, lost).aborted
    ensures Astray(UploadNameLosing(env, f, n, lost), n)
  {
    var c, q := CreateFile(f.tables, env.owner, n, f.folder[n]), UploadNameLosing(env, f, n, lost);
    MistakeAdds(env, f, n, lost);
    assert c.row in q.tables.files;
    forall k | k in q.entries && k != n
      ensures q.entries[k].remoteId != q.entries[n].remoteId
    {
      assert EntryLive(f.tables.files, env.owner, k, f.entries[k]);
    }
  }

  lemma CreatedAdds(s: Tables, owner: nat, n: string, body: Content)
    requires CreateFile(s, owner, n, body).Created?
    ensures var c := CreateFile(s, owner, n, body); c.row.id > s.lastId && c.tables.files == s.files + [c.row]
  {
  }

  lemma PutKeepsAstray(env: Env, p: Pass, n: string, m: string)
    requires n in env.scan && n != m && Valid(p.tables) && Astray(p, m)
    ensures Astray(PutFile(env, p, n), m)
  {
    if n in p.folder && p.budget > 0 && CreateFile(p.tables, env.owner, n, p.folder[n]).Created? {
      var c := CreateFile(p.tables, env.owner, n, p.folder[n]);
      CreatedAdds(p.tables, env.owner, n, p.folder[n]);
      AddedKeepsAstray(p, PutFile(env, p, n), n, m, c.row);
    }
  }

  lemma AddedKeepsAstray(p: Pass, q: Pass, n: string, m: string, row: Row)
    requires n != m && Valid(p.tables) && Astray(p, m)
    requires row.id > p.tables.lastId && q.tables.files == p.tables.files + [row]
    requires n in q.entries && q.entries[n].remoteId == row.id && q.entries == p.entries[n := q.entries[n]]
    ensures Astray(q, m)
  {
    var r :| r in p.tables.files && r.id == p.entries[m].remoteId && r.name != m;
    assert r in q.tables.files;
  }

  lemma DeleteKeepsAstray(env: Env, p: Pass, n: string, m: string)
    requires Valid(p.tables) && Astray(p, m) && n in p.entries && n != m
    ensures Astray(RemoteDelete(env, p, n, p.entries[n].remoteId), m)
    ensures Valid(RemoteDelete(env, p, n, p.entries[n].remoteId).tables)
  {
    var id := p.entries[n].remoteId;
    WithoutMembers(p.tables.files, id);
    BuryValid(p.tables, env.owner, id);
    var r :| r in p.tables.files && r.id == p.entries[m].remoteId && r.name != m;
    assert r in RemoteDelete(env, p, n, id).tables.files;
  }

  lemma RoundKeepsAstray(env: Env, p: Pass, n: string, lost: set<string>, m: string)
    requires n in env.scan && n != m && Valid(p.tables) && Astray(p, m)
    ensures Astray(UploadNameLosing(env, p, n, lost), m)
  {
    PutKeepsAstray(env, p, n, m);
    if Replaces(env, p, n) {
      if n in lost {
        PutKeepsAstray(env, LostDelete(p, n), n, m);
      } else {
        DeleteKeepsAstray(env, p, n, m);
        PutKeepsAstray(env, RemoteDelete(env, p, n, p.entries[n].remoteId), n, m);
      }
    }
  }

  /** What was mistaken once stays so for the rest of the uploads. */
  lemma {:induction false} MistakenAstray(env: Env, s: Tables, p: Pass, order: seq<string>, lost: set<string>,
                                          since: nat)
    returns (m: string)
    requires !p.aborted && Settled(env, p) && since <= p.tables.lastVersion && ServerOk(p.tables) && Later(s, p.tables)
    requires Distinct(order) && forall n :: n in order ==> n in env.scan && Uploadable(env, p, n)
    requires Mistaken(env, p, order, lost)
    ensures m in order && Astray(UploadAllLosing(env, p, order, lost), m)
  {
    var front, n := order[..|order| - 1], order[|order| - 1];
    var f := UploadAllLosing(env, p, front, lost);
    FrontOfDistinct(order);
    if Mistaken(env, p, front, lost) {
      m := MistakenAstray(env, s, p, front, lost, since);
      UploadsLosingKeepServer(env, s, p, front, lost);
      RoundKeepsAstray(env, f, n, lost, m);
    } else {
      m := n;
      SameUnlessMistaken(env, p, front, lost);
      UploadAllNames(env, p, front, n, since);
      UploadableStill(env, p, f, n, since);
      MistakeAstray(env, f, n, lost);
    }
  }

  // ---- The server -------------------------------------------------------------------------

  lemma {:induction false} UploadsLosingKeepServer(env: Env, s: Tables, p: Pass, order: seq<string>, lost: set<string>)
    requires forall n :: n in order ==> n in env.scan
    requires ServerOk(p.tables) && Later(s, p.tables)
    ensures var t := UploadAllLosing(env, p, order, lost).tables; ServerOk(t) && Later(s, t)
  {
    if order != [] {
      var front, n := order[..|order| - 1], order[|order| - 1];
      UploadsLosingKeepServer(env, s, p, front, lost);
      var f := UploadAllLosing(env, p, front, lost);
      UploadKeepsServer(env, s, f, n);
      if Replaces(env, f, n) {
        PutKeepsServer(env, s, LostDelete(f, n), n);
      }
    }
  }

  lemma {:induction false} RemovalsLosingKeepServer(env: Env, s: Tables, p: Pass, order: seq<string>, lost: set<string>)
    requires ServerOk(p.tables) && Later(s, p.tables)
    ensures var t := RemoveAllLosing(env, p, order, lost).tables; ServerOk(t) && Later(s, t)
  {
    if order != [] {
      var n := order[|order| - 1];
      RemovalsLosingKeepServer(env, s, p, order[..|order| - 1], lost);
      var q := RemoveAllLosing(env, p, order[..|order| - 1], lost);
      if n in q.entries {
        BuryKeepsServer(s, q.tables, env.owner, q.entries[n].remoteId);
      }
    }
  }

  /** Whatever fails, a pass leaves a well-formed later server. */
  lemma LosingKeepsServer(env: Env, c: Client, s: Tables, budget: nat, order: seq<string>, removals: seq<string>,
                          lost: set<string>)
    requires ServerOk(s) && forall n :: n in order ==> n in env.scan
    ensures var t := RunPassLosing(env, c, s, budget, order, removals, lost).tables;
            ServerOk(t) && Later(s, t)
  {
    LaterRefl(s);
    ApplyActionsKeepsTables(env, StartPass(c, s, budget), DiffActions(s, c.owner, c.cursor, ManifestOf(env.scan)));
    UploadsLosingKeepServer(env, s, AfterActions(env, c, s, budget), order, lost);
    RemovalsLosingKeepServer(env, s, AfterUploadsLosing(env, c, s, budget, order, lost), removals, lost);
  }

  // ---- The rest of the pass ---------------------------------------------------------------

  lemma {:induction false} UploadsLosingKeepFolder(env: Env, p: Pass, order: seq<string>, lost: set<string>)
    requires forall n :: n in order ==> n in env.scan
    ensures var q := UploadAllLosing(env, p, order, lost); q.folder == p.folder && q.conflicts == p.conflicts
  {
    if order != [] {
      UploadsLosingKeepFolder(env, p, order[..|order| - 1], lost);
    }
  }

  lemma {:induction false} RemovalsLosingKeepFolder(env: Env, p: Pass, order: seq<string>, lost: set<string>)
    ensures var q := RemoveAllLosing(env, p, order, lost);
            q.folder == p.folder && q.conflicts == p.conflicts && q.aborted == p.aborted
  {
    if order != [] {
      RemovalsLosingKeepFolder(env, p, order[..|order| - 1], lost);
    }
  }

  lemma {:induction false} RemovalsSettled(env: Env, p: Pass, order: seq<string>, lost: set<string>, since: nat)
    requires !p.aborted && Settled(env, p) && since <= p.tables.lastVersion
    ensures var q := RemoveAllLosing(env, p, order, lost);
            !q.aborted && Settled(env, q) && since <= q.tables.lastVersion
  {
    if order != [] {
      var n := order[|order| - 1];
      RemovalsSettled(env, p, order[..|order| - 1], lost, since);
      var q := RemoveAllLosing(env, p, order[..|order| - 1], lost);
      if n in q.entries {
        RemoveSound(env, q, n, since);
      }
    }
  }

  lemma {:induction false} RemovalsKeepAstray(env: Env, p: Pass, order: seq<string>, lost: set<string>, m: string)
    requires Valid(p.tables) && Astray(p, m) && m !in order
    ensures var q := RemoveAllLosing(env, p, order, lost); Valid(q.tables) && Astray(q, m)
  {
    if order != [] {
      var n := order[|order| - 1];
      RemovalsKeepAstray(env, p, order[..|order| - 1], lost, m);
      var q := RemoveAllLosing(env, p, order[..|order| - 1], lost);
      if n in q.entries {
        DeleteKeepsAstray(env, q, n, m);
        DropKeepsAstray(env, q, n, lost, m);
      }
    }
  }

  lemma DropKeepsAstray(env: Env, p: Pass, n: string, lost: set<string>, m: string)
    requires Astray(p, m) && n != m && n in p.entries && Astray(RemoteDelete(env, p, n, p.entries[n].remoteId), m)
    ensures Astray(RemoveNameLosing(env, p, n, lost), m)
  {
  }

  // ---- The whole pass ---------------------------------------------------------------------

  /** The entries a pass leaves are all tracked exactly when no delete failed before an upload
      of its name that went through. */
  lemma LosingTracksIff(env: Env, c: Client, s: Tables, budget: nat, order: seq<string>, removals: seq<string>,
                        lost: set<string>)
    requires ServerOk(s) && ClientOk(c, s) && PassEnv(env, c, s)
    requires OrdersLosing(env, c, s, budget, order, removals, lost) && !AfterActions(env, c, s, budget).aborted
    ensures var f := RunPassLosing(env, c, s, budget, order, removals, lost);
            Tracked(f.tables, c.owner, NewCursor(s, c.owner, c.cursor), f.entries)
            <==> !Mistaken(env, AfterActions(env, c, s, budget), order, lost)
  {
    var a, u := AfterActions(env, c, s, budget), AfterUploadsLosing(env, c, s, budget, order, lost);
    var since := NewCursor(s, c.owner, c.cursor);
    ActionsTable(env, c, s, budget, "");
    ActionsSettle(env, c, s, budget);
    CursorCovers(s, c.owner, c.cursor);
    LaterRefl(s);
    UploadsLosingKeepServer(env, s, a, order, lost);
    if Mistaken(env, a, order, lost) {
      var m := MistakenAstray(env, s, a, order, lost, since);
      RemovalsKeepAstray(env, u, removals, lost, m);
      AstrayUntracked(RemoveAllLosing(env, u, removals, lost), c.owner, since, m);
    } else {
      UploadsTracked(env, a, order, lost, since);
      if u.aborted {
        AbortedRemovals(env, u, removals, lost);
      } else {
        RemovalsSettled(env, u, removals, lost, since);
        var f := RemoveAllLosing(env, u, removals, lost);
        LiveIsTracked(f.tables, c.owner, since, f.entries);
      }
    }
  }

  /** What else is kept about the client does not depend on the deletes. */
  lemma LosingFolder(env: Env, c: Client, s: Tables, budget: nat, order: seq<string>, removals: seq<string>,
                     lost: set<string>)
    requires ServerOk(s) && ClientOk(c, s) && PassEnv(env, c, s) && forall n :: n in order ==> n in env.scan
    ensures var f := RunPassLosing(env, c, s, budget, order, removals, lost);
            (forall n :: n in f.folder ==> PlainName(n)) && UniqueConflicts(f.conflicts)
            && ConflictsKnown(s, c.owner, f.conflicts)
  {
    var p, actions := StartPass(c, s, budget), DiffActions(s, c.owner, c.cursor, ManifestOf(env.scan));
    ActionsTracked(env, p, actions, c.cursor);
    ApplyActionsKeepsTables(env, p, actions);
    ConflictsKept(env, p, actions);
    UploadsLosingKeepFolder(env, AfterActions(env, c, s, budget), order, lost);
    RemovalsLosingKeepFolder(env, AfterUploadsLosing(env, c, s, budget, order, lost), removals, lost);
  }

  /** The pass recorded a row under a name the row does not have: a delete failed, the upload of
      the name went through, and the client kept its entry, which the web client does not when
      the pass aborts later. */
  ghost predicate PassMisnames(env: Env, c: Client, s: Tables, budget: nat, order: seq<string>, removals: seq<string>,
                               lost: set<string>, desktop: bool)
    requires forall n :: n in order ==> n in env.scan
  {
    && Mistaken(env, AfterActions(env, c, s, budget), order, lost)
    && (desktop || !RunPassLosing(env, c, s, budget, order, removals, lost).aborted)
  }

  /** A pass, cut off anywhere and whichever of its deletes fail, keeps its client in order
      exactly when it misnames nothing. */
  lemma LosingKeepsClientIff(env: Env, c: Client, s: Tables, budget: nat, order: seq<string>, removals: seq<string>,
                             lost: set<string>, desktop: bool)
    requires ServerOk(s) && ClientOk(c, s) && PassEnv(env, c, s)
    requires OrdersLosing(env, c, s, budget, order, removals, lost)
    ensures ClientOk(ClientLosing(env, c, s, budget, order, removals, lost, desktop),
                     RunPassLosing(env, c, s, budget, order, removals, lost).tables)
            <==> !PassMisnames(env, c, s, budget, order, removals, lost, desktop)
  {
    var a, f := AfterActions(env, c, s, budget), RunPassLosing(env, c, s, budget, order, removals, lost);
    LosingKeepsServer(env, c, s, budget, order, removals, lost);
    LosingFolder(env, c, s, budget, order, removals, lost);
    CursorCovers(s, c.owner, c.cursor);
    TrackedLater(s, f.tables, c.owner, c.cursor, c.entries);
    KnownLater(s, f.tables, c.owner, c.conflicts);
    KnownLater(s, f.tables, c.owner, f.conflicts);
    if a.aborted {
      AbortedStaysLosing(env, a, order, lost);
      AbortedRemovals(env, a, removals, lost);
      var actions := DiffActions(s, c.owner, c.cursor, ManifestOf(env.scan));
      ApplyActionsKeepsTables(env, StartPass(c, s, budget), actions);
      ActionsTracked(env, StartPass(c, s, budget), actions, c.cursor);
    } else {
      LosingTracksIff(env, c, s, budget, order, removals, lost);
    }
  }

  // ---- Told from the table ----------------------------------------------------------------

  lemma ReplacesIff(env: Env, p: Pass, n: string)
    requires n in env.scan && !p.aborted
    ensures Replaces(env, p, n) <==> FateOf(env, p, n) == Replace
  {
  }

  lemma {:induction false} MistakenReplaces(env: Env, p: Pass, order: seq<string>, lost: set<string>, since: nat)
    returns (n: string)
    requires !p.aborted && Settled(env, p) && since <= p.tables.lastVersion
    requires Distinct(order) && forall k :: k in order ==> k in env.scan && Uploadable(env, p, k)
    requires Mistaken(env, p, order, lost)
    ensures n in order && n in lost && FateOf(env, p, n) == Replace
  {
    var front := order[..|order| - 1];
    FrontOfDistinct(order);
    if Mistaken(env, p, front, lost) {
      n := MistakenReplaces(env, p, front, lost, since);
    } else {
      n := order[|order| - 1];
      TurnFate(env, p, front, n, lost, since);
    }
  }

  /** At its turn, before any mistake, a name meets the fate decided after the actions. */
  lemma {:induction false} TurnFate(env: Env, p: Pass, front: seq<string>, n: string, lost: set<string>, since: nat)
    requires !p.aborted && Settled(env, p) && since <= p.tables.lastVersion
    requires Distinct(front) && forall k :: k in front ==> k in env.scan && Uploadable(env, p, k)
    requires n !in front && n in env.scan && Uploadable(env, p, n)
    requires !Mistaken(env, p, front, lost) && !UploadAllLosing(env, p, front, lost).aborted
    ensures Replaces(env, UploadAllLosing(env, p, front, lost), n) <==> FateOf(env, p, n) == Replace
  {
    SameUnlessMistaken(env, p, front, lost);
    UploadAllNames(env, p, front, n, since);
    UploadableStill(env, p, UploadAll(env, p, front), n, since);
    ReplacesIff(env, UploadAll(env, p, front), n);
  }

  lemma {:induction false} ReplaceMistaken(env: Env, p: Pass, order: seq<string>, lost: set<string>, since: nat,
                                           n: string)
    requires !p.aborted && Settled(env, p) && since <= p.tables.lastVersion
    requires Distinct(order) && forall k :: k in order ==> k in env.scan && Uploadable(env, p, k)
    requires n in order && n in lost && FateOf(env, p, n) == Replace && !UploadAllLosing(env, p, order, lost).aborted
    ensures Mistaken(env, p, order, lost)
  {
    var front := order[..|order| - 1];
    FrontOfDistinct(order);
    if n in front {
      ReplaceMistaken(env, p, front, lost, since, n);
    } else if !Mistaken(env, p, front, lost) {
      TurnFate(env, p, front, n, lost, since);
    }
  }

  /** So a completed pass keeps its client in order exactly when no delete fails for a name that
      the table wants replaced. */
  lemma CompletedLosingIff(env: Env, c: Client, s: Tables, budget: nat, order: seq<string>, removals: seq<string>,
                           lost: set<string>, desktop: bool)
    requires ServerOk(s) && ClientOk(c, s) && PassEnv(env, c, s)
    requires OrdersLosing(env, c, s, budget, order, removals, lost)
    requires !RunPassLosing(env, c, s, budget, order, removals, lost).aborted
    ensures ClientOk(ClientLosing(env, c, s, budget, order, removals, lost, desktop),
                     RunPassLosing(env, c, s, budget, order, removals, lost).tables)
            <==> forall n :: n in lost ==> FateFor(env, c, s, n) != Replace
  {
    var a, since := AfterActions(env, c, s, budget), NewCursor(s, c.owner, c.cursor);
    LosingKeepsClientIff(env, c, s, budget, order, removals, lost, desktop);
    RemovalsLosingKeepFolder(env, AfterUploadsLosing(env, c, s, budget, order, lost), removals, lost);
    if a.aborted {
      AbortedStaysLosing(env, a, order, lost);
    }
    ActionsTable(env, c, s, budget, "");
    ActionsSettle(env, c, s, budget);
    CursorCovers(s, c.owner, c.cursor);
    if Mistaken(env, a, order, lost) {
      var n := MistakenReplaces(env, a, order, lost, since);
      ActionsTable(env, c, s, budget, n);
      assert FateFor(env, c, s, n) == Replace;
    } else {
      forall n | n in lost
        ensures FateFor(env, c, s, n) != Replace
      {
        NotReplaced(env, c, s, budget, order, lost, n);
      }
    }
  }

  lemma NotReplaced(env: Env, c: Client, s: Tables, budget: nat, order: seq<string>, lost: set<string>, n: string)
    requires ServerOk(s) && ClientOk(c, s) && PassEnv(env, c, s) && Visits(order, env.scan.Keys) && n in lost
    requires var a := AfterActions(env, c, s, budget);
             !a.aborted && !UploadAllLosing(env, a, order, lost).aborted && !Mistaken(env, a, order, lost)
    ensures FateFor(env, c, s, n) != Replace
  {
    ActionsTable(env, c, s, budget, n);
    ActionsSettle(env, c, s, budget);
    CursorCovers(s, c.owner, c.cursor);
    if FateFor(env, c, s, n) == Replace {
      ReplaceMistaken(env, AfterActions(env, c, s, budget), order, lost, NewCursor(s, c.owner, c.cursor), n);
    }
  }
}
