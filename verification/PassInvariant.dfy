/** What a pass keeps about its client and the server: at every prefix of its calls every entry
    stays tracked, and the server only sees ordinary writes. */
module PassInvariant {
  import opened Basics
  import opened FileNames
  import opened Repo
  import opened FileService
  import opened SyncService
  import opened Cursor
  import opened Reconcile
  import opened ReconcileTable
  import opened ReconcilePass
  import opened SyncTheorems

  // ---- Anything a pass does to the server is a run of ordinary writes ---------------------

  lemma LaterRefl(s: Tables)
    ensures Later(s, s)
  {
  }

  lemma CreateKeepsServer(s: Tables, t: Tables, owner: nat, filename: string, body: Content)
    requires ServerOk(t) && Later(s, t) && CreateFile(t, owner, filename, body).Created?
    ensures var u := CreateFile(t, owner, filename, body).tables;
            ServerOk(u) && Later(s, u)
  {
    CreatePicksLeastFree(t, owner, filename, body);
    var row := CreateFile(t, owner, filename, body).row;
    PutLater(s, t, owner, row.name, body);
    assert forall r :: r in Insert(t, owner, row.name, body).files ==> r in t.files || r == row;
  }

  lemma BuryKeepsServer(s: Tables, t: Tables, owner: nat, id: nat)
    requires ServerOk(t) && Later(s, t)
    ensures var u := Bury(t, owner, id);
            ServerOk(u) && Later(s, u)
  {
    BuryValid(t, owner, id);
    DropLater(s, t, owner, id);
    WithoutMembers(t.files, id);
  }

  lemma PutKeepsServer(env: Env, s: Tables, p: Pass, n: string)
    requires n in env.scan && ServerOk(p.tables) && Later(s, p.tables)
    ensures var t := PutFile(env, p, n).tables;
            ServerOk(t) && Later(s, t)
  {
    if n in p.folder && CreateFile(p.tables, env.owner, n, p.folder[n]).Created? {
      CreateKeepsServer(s, p.tables, env.owner, n, p.folder[n]);
    }
  }

  lemma UploadKeepsServer(env: Env, s: Tables, p: Pass, n: string)
    requires n in env.scan && ServerOk(p.tables) && Later(s, p.tables)
    ensures var t := UploadName(env, p, n).tables;
            ServerOk(t) && Later(s, t)
  {
    if n in p.entries {
      var id := p.entries[n].remoteId;
      BuryKeepsServer(s, p.tables, env.owner, id);
      PutKeepsServer(env, s, RemoteDelete(env, p, n, id), n);
    }
    PutKeepsServer(env, s, p, n);
  }

  lemma {:induction false} UploadsKeepServer(env: Env, s: Tables, p: Pass, order: seq<string>)
    requires forall n :: n in order ==> n in env.scan
    requires ServerOk(p.tables) && Later(s, p.tables)
    ensures var t := UploadAll(env, p, order).tables;
            ServerOk(t) && Later(s, t)
  {
    if order != [] {
      var front := order[..|order| - 1];
      UploadsKeepServer(env, s, p, front);
      UploadKeepsServer(env, s, UploadAll(env, p, front), order[|order| - 1]);
    }
  }

  lemma {:induction false} RemovalsKeepServer(env: Env, s: Tables, p: Pass, order: seq<string>)
    requires ServerOk(p.tables) && Later(s, p.tables)
    ensures var t := RemoveAll(env, p, order).tables;
            ServerOk(t) && Later(s, t)
  {
    if order != [] {
      var n := order[|order| - 1];
      RemovalsKeepServer(env, s, p, order[..|order| - 1]);
      var q := RemoveAll(env, p, order[..|order| - 1]);
      if n in q.entries {
        BuryKeepsServer(s, q.tables, env.owner, q.entries[n].remoteId);
      }
    }
  }

  /** For any client, entries and responses, a pass leaves a well-formed later server. */
  lemma PassKeepsServer(env: Env, c: Client, s: Tables, budget: nat, order: seq<string>, removals: seq<string>)
    requires ServerOk(s) && forall n :: n in order ==> n in env.scan
    ensures var t := RunPass(env, c, s, budget, order, removals).tables;
            ServerOk(t) && Later(s, t)
  {
    ApplyActionsKeepsTables(env, StartPass(c, s, budget), DiffActions(s, c.owner, c.cursor, ManifestOf(env.scan)));
    UploadsKeepServer(env, s, AfterActions(env, c, s, budget), order);
    RemovalsKeepServer(env, s, AfterUploads(env, c, s, budget, order), removals);
  }

  // ---- Tracking ---------------------------------------------------------------------------

  /** Whatever others write, a tracked entry stays tracked. */
  lemma TrackedLater(s: Tables, t: Tables, owner: nat, cursor: nat, entries: map<string, Entry>)
    requires Valid(s) && Valid(t) && Later(s, t) && cursor <= s.lastVersion
    requires Tracked(s, owner, cursor, entries)
    ensures Tracked(t, owner, cursor, entries)
  {
    forall n | n in entries
      ensures EntryLive(t.files, owner, n, entries[n]) || EntryBuried(t.deletions, owner, n, entries[n], cursor)
    {
      if EntryLive(s.files, owner, n, entries[n]) {
        LiveEntryLater(s, t, owner, cursor, n, entries[n]);
      } else {
        var d :| d in s.deletions && d.row.owner == owner && d.row.name == n && d.version > cursor
            && Describes(entries[n], d.row);
        assert d in t.deletions;
      }
    }
  }

  lemma LiveEntryLater(s: Tables, t: Tables, owner: nat, cursor: nat, n: string, e: Entry)
    requires UniqueNames(t.files) && LaterFiles(s, t) && cursor <= s.lastVersion
    requires EntryLive(s.files, owner, n, e)
    ensures EntryLive(t.files, owner, n, e) || EntryBuried(t.deletions, owner, n, e, cursor)
  {
  }

  lemma KnownLater(s: Tables, t: Tables, owner: nat, conflicts: seq<Conflict>)
    requires Later(s, t) && ConflictsKnown(s, owner, conflicts)
    ensures ConflictsKnown(t, owner, conflicts)
  {
  }

  lemma RowKnownLater(s: Tables, t: Tables, owner: nat, n: string, id: nat)
    requires Later(s, t) && KnownRow(s, owner, n, id)
    ensures KnownRow(t, owner, n, id)
  {
  }

  /** Everything kept about a client survives other people's writes. */
  lemma ClientLater(s: Tables, t: Tables, c: Client)
    requires Valid(s) && Valid(t) && Later(s, t) && ClientOk(c, s)
    ensures ClientOk(c, t)
  {
    TrackedLater(s, t, c.owner, c.cursor, c.entries);
    KnownLater(s, t, c.owner, c.conflicts);
  }

  lemma PassFolder(env: Env, c: Client, s: Tables, budget: nat, order: seq<string>, removals: seq<string>)
    requires ServerOk(s) && ClientOk(c, s) && PassEnv(env, c, s) && Orders(env, c, s, budget, order, removals)
    ensures var f := RunPass(env, c, s, budget, order, removals);
            (forall n :: n in f.folder ==> PlainName(n)) && UniqueConflicts(f.conflicts)
            && f.conflicted == ConflictNames(f.conflicts)
            && ConflictNames(c.conflicts) <= ConflictNames(f.conflicts)
            && ConflictsKnown(s, c.owner, f.conflicts)
  {
    var p, actions := StartPass(c, s, budget), DiffActions(s, c.owner, c.cursor, ManifestOf(env.scan));
    ActionsTracked(env, p, actions, c.cursor);
    ApplyActionsKeepsTables(env, p, actions);
    ConflictsKept(env, p, actions);
    UploadsKeepFolder(env, AfterActions(env, c, s, budget), order);
    RemovalsKeepFolder(env, AfterUploads(env, c, s, budget, order), removals);
  }

  lemma {:induction false} UploadsKeepFolder(env: Env, p: Pass, order: seq<string>)
    requires forall n :: n in order ==> n in env.scan
    ensures var q := UploadAll(env, p, order);
            q.folder == p.folder && q.conflicts == p.conflicts && q.conflicted == p.conflicted
  {
    if order != [] {
      UploadsKeepFolder(env, p, order[..|order| - 1]);
    }
  }

  lemma {:induction false} RemovalsKeepFolder(env: Env, p: Pass, order: seq<string>)
    ensures var q := RemoveAll(env, p, order);
            q.folder == p.folder && q.conflicts == p.conflicts && q.conflicted == p.conflicted
  {
    if order != [] {
      RemovalsKeepFolder(env, p, order[..|order| - 1]);
    }
  }

  /** A pass, completed or aborted at any call, keeps what is kept about its own client, in the
      desktop and in the web version; a completed pass leaves every tracked row live. */
  lemma PassKeepsClient(env: Env, c: Client, s: Tables, budget: nat, order: seq<string>, removals: seq<string>)
    requires ServerOk(s) && ClientOk(c, s) && PassEnv(env, c, s) && Orders(env, c, s, budget, order, removals)
    ensures var f := RunPass(env, c, s, budget, order, removals);
            var desktop := DesktopAfter(env, c, s, budget, order, removals);
            var web := WebAfter(env, c, s, budget, order, removals);
            && ClientOk(desktop, f.tables) && ClientOk(web, f.tables)
            && (!f.aborted ==> web == desktop && AllLive(f.tables.files, c.owner, desktop.entries))
  {
    var a, u := AfterActions(env, c, s, budget), AfterUploads(env, c, s, budget, order);
    var f, since := RunPass(env, c, s, budget, order, removals), NewCursor(s, c.owner, c.cursor);
    PassKeepsServer(env, c, s, budget, order, removals);
    PassFolder(env, c, s, budget, order, removals);
    CursorCovers(s, c.owner, c.cursor);
    TrackedLater(s, f.tables, c.owner, c.cursor, c.entries);
    KnownLater(s, f.tables, c.owner, c.conflicts);
    KnownLater(s, f.tables, c.owner, f.conflicts);
    AbortedStays(env, a, order, removals);
    AbortedStays(env, u, [], removals);
    if a.aborted {
      var actions := DiffActions(s, c.owner, c.cursor, ManifestOf(env.scan));
      ApplyActionsKeepsTables(env, StartPass(c, s, budget), actions);
      ActionsTracked(env, StartPass(c, s, budget), actions, c.cursor);
    } else {
      UploadPhase(env, c, s, budget, order, "");
      if !u.aborted {
        RemovalPhase(env, u, removals, "", since);
      }
    }
  }
}
