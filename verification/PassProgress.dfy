/** When a pass gets through, and where it stops when it does not: each download and each upload
    takes one answered call, and nothing else can stop it. */
module PassProgress {
  import opened Basics
  import opened Repo
  import opened SyncService
  import opened Reconcile
  import opened ReconcileTable
  import opened ReconcilePass
  import opened SyncTheorems

  // ---- What is due, told from the state before the pass -----------------------------------

  /** The owner's rows that are newer than the cursor and have no readable file of their name. */
  function DownloadsDue(env: Env, c: Client, s: Tables): set<Row> {
    set r | r in s.files && r.owner == c.owner && r.version > c.cursor && r.name !in env.scan
  }

  /** A readable file in no conflict, new or old, and not deleted on the server since the
      cursor, that differs from its entry or has neither entry nor row. */
  ghost predicate UploadDue(env: Env, c: Client, s: Tables, n: string) {
    && n in env.scan
    && (forall k :: k in c.conflicts ==> k.name != n)
    && (forall r :: r in s.files && r.owner == c.owner && r.name == n ==>
          r.version <= c.cursor || r.body == env.scan[n])
    && (forall t :: t in s.deletions && t.row.owner == c.owner && t.row.name == n ==> t.version <= c.cursor)
    && (if n in c.entries then c.entries[n].size != |env.scan[n]| || c.entries[n].hash != Digest(env.scan[n])
        else forall r :: r in s.files && r.owner == c.owner ==> r.name != n)
  }

  ghost function UploadsDue(env: Env, c: Client, s: Tables): set<string> {
    set n | n in env.scan && UploadDue(env, c, s, n)
  }

  // ---- The actions ------------------------------------------------------------------------

  /** How many of the actions are downloads. */
  function Downloads(actions: seq<Action>): nat {
    if actions == [] then 0
    else Downloads(actions[..|actions| - 1]) + if actions[|actions| - 1].Download? then 1 else 0
  }

  /** The listing has every file that is to be downloaded, and so does the server. */
  ghost predicate Served(env: Env, p: Pass, actions: seq<Action>) {
    forall a :: a in actions && a.Download? ==>
      a.name in env.remote && FindId(p.tables.files, env.owner, env.remote[a.name].id).Some?
  }

  lemma {:induction false} ActionsBudget(env: Env, p: Pass, actions: seq<Action>)
    requires !p.aborted && Served(env, p, actions)
    ensures var q := ApplyActions(env, p, actions);
            && (q.aborted <==> p.budget < Downloads(actions))
            && (!q.aborted ==> q.budget == p.budget - Downloads(actions))
  {
    if actions != [] {
      var front := actions[..|actions| - 1];
      ActionsBudget(env, p, front);
      ApplyActionsKeepsTables(env, p, front);
      assert actions[|actions| - 1] in actions;
    }
  }

  lemma {:induction false} DownloadsAppend(a: seq<Action>, b: seq<Action>)
    ensures Downloads(a + b) == Downloads(a) + Downloads(b)
  {
    if b == [] {
      assert a + b == a;
    } else {
      assert (a + b)[..|a + b| - 1] == a + b[..|b| - 1];
      DownloadsAppend(a, b[..|b| - 1]);
    }
  }

  lemma {:induction false} TombsDownloadNothing(tombs: seq<Tomb>)
    ensures Downloads(TombActions(tombs)) == 0
    ensures forall a :: a in TombActions(tombs) ==> a.DeleteLocal?
  {
    if tombs != [] {
      TombsDownloadNothing(tombs[..|tombs| - 1]);
      var acts := TombActions(tombs);
      assert acts[..|acts| - 1] == TombActions(tombs[..|tombs| - 1]);
    }
  }

  function Missing(rows: seq<Row>, local: map<string, Hash>): set<Row> {
    set r | r in rows && r.name !in local
  }

  lemma {:induction false} RowsDownload(rows: seq<Row>, local: map<string, Hash>)
    requires NamedOnce(rows) && Hashed(rows) && forall n :: n in local ==> local[n] != Unhashed
    ensures Downloads(RowActions(rows, local)) == |Missing(rows, local)|
  {
    if rows != [] {
      var front, last := rows[..|rows| - 1], rows[|rows| - 1];
      assert last in rows && forall r :: r in front ==> r in rows;
      RowsDownload(front, local);
      LastDownload(rows, local);
      MissingLast(rows, local);
    }
  }

  lemma LastDownload(rows: seq<Row>, local: map<string, Hash>)
    requires rows != [] && rows[|rows| - 1].hash != Unhashed && forall n :: n in local ==> local[n] != Unhashed
    ensures Downloads(RowActions(rows, local))
            == Downloads(RowActions(rows[..|rows| - 1], local)) + if rows[|rows| - 1].name in local then 0 else 1
  {
    var a := RowAction(rows[|rows| - 1], local);
    DownloadsAppend(RowActions(rows[..|rows| - 1], local), if a.Some? then [a.value] else []);
    DownloadsOne(a);
  }

  lemma MissingLast(rows: seq<Row>, local: map<string, Hash>)
    requires NamedOnce(rows) && rows != []
    ensures var front, last := rows[..|rows| - 1], rows[|rows| - 1];
            |Missing(rows, local)| == |Missing(front, local)| + if last.name in local then 0 else 1
  {
    var front, last := rows[..|rows| - 1], rows[|rows| - 1];
    OthersNamed(rows);
    assert rows == front + [last] && last !in front;
    assert Missing(rows, local) == Missing(front, local) + if last.name in local then {} else {last};
  }

  lemma DownloadsOne(a: Option<Action>)
    ensures Downloads(if a.Some? then [a.value] else []) == if a.Some? && a.value.Download? then 1 else 0
  {
    if a.Some? {
      assert [a.value][..0] == [];
    }
  }

  lemma {:induction false} RowActionsNamed(rows: seq<Row>, local: map<string, Hash>, a: Action)
    requires a in RowActions(rows, local)
    ensures exists r :: r in rows && r.name == a.name
  {
    var front, last := rows[..|rows| - 1], rows[|rows| - 1];
    if a in RowActions(front, local) {
      RowActionsNamed(front, local, a);
    } else {
      assert last in rows && last.name == a.name;
    }
  }

  lemma DiffServed(env: Env, c: Client, s: Tables, p: Pass)
    requires Valid(s) && PassEnv(env, c, s) && p.tables == s
    ensures Served(env, p, DiffActions(s, c.owner, c.cursor, ManifestOf(env.scan)))
  {
    var rows, tombs := Changed(s.files, c.owner, c.cursor), Deleted(s.deletions, c.owner, c.cursor);
    TombsDownloadNothing(tombs);
    ChangedMembers(s.files, c.owner, c.cursor);
    forall a | a in RowActions(rows, ManifestOf(env.scan))
      ensures a.name in env.remote && FindId(s.files, env.owner, env.remote[a.name].id).Some?
    {
      RowActionsNamed(rows, ManifestOf(env.scan), a);
      var r :| r in rows && r.name == a.name;
      LiveRow(s.files, c.owner, r);
    }
  }

  lemma DiffDownloads(env: Env, c: Client, s: Tables)
    requires Valid(s) && Hashed(s.files)
    ensures Downloads(DiffActions(s, c.owner, c.cursor, ManifestOf(env.scan))) == |DownloadsDue(env, c, s)|
  {
    var rows, tombs := Changed(s.files, c.owner, c.cursor), Deleted(s.deletions, c.owner, c.cursor);
    var local := ManifestOf(env.scan);
    DownloadsAppend(RowActions(rows, local), TombActions(tombs));
    TombsDownloadNothing(tombs);
    ChangedMembers(s.files, c.owner, c.cursor);
    OwnedNamedOnce(s.files, c.owner, c.cursor);
    RowsDownload(rows, local);
    assert Missing(rows, local) == DownloadsDue(env, c, s);
  }

  // ---- The uploads ------------------------------------------------------------------------

  /** The fates that take a call. */
  predicate Uploads(fate: Fate) {
    fate == Create || fate == Replace
  }

  function Uploading(env: Env, p: Pass, order: seq<string>): set<string> {
    set n | n in order && Uploads(FateOf(env, p, n))
  }

  /** A round that uploads gets through exactly when its call is answered. */
  lemma RoundBudget(env: Env, p: Pass, n: string, since: nat)
    requires !p.aborted && Settled(env, p) && Uploadable(env, p, n) && since <= p.tables.lastVersion
    ensures var q, due := UploadName(env, p, n), Uploads(FateOf(env, p, n));
            && (q.aborted <==> due && p.budget == 0)
            && (!q.aborted ==> q.budget == if due then p.budget - 1 else p.budget)
  {
    match FateOf(env, p, n)
    case Keep =>
    case Drop =>
    case Create =>
      PutBudget(env, p, n);
    case Replace =>
      var deleted := RemoteDelete(env, p, n, p.entries[n].remoteId);
      DeleteStep(env, p, n, since);
      assert UploadName(env, p, n) == PutFile(env, deleted, n);
      PutBudget(env, deleted, n);
  }

  /** An upload to a free name fails exactly when its call is not answered, and then changes
      nothing. */
  lemma PutBudget(env: Env, p: Pass, n: string)
    requires !p.aborted && Valid(p.tables) && Uploadable(env, p, n) && n !in p.deleted
    requires FindName(p.tables.files, env.owner, n).None?
    ensures var q := PutFile(env, p, n);
            && (q.aborted <==> p.budget == 0)
            && (if q.aborted then q == p.(aborted := true) else q.budget == p.budget - 1)
  {
    CreateEntry(p.tables, env.owner, n, env.scan[n], n);
  }

  lemma RoundStops(env: Env, p: Pass, n: string, since: nat)
    requires !p.aborted && Settled(env, p) && Uploadable(env, p, n) && since <= p.tables.lastVersion
    requires UploadName(env, p, n).aborted
    ensures Uploads(FateOf(env, p, n)) && p.budget == 0 && (FateOf(env, p, n) == Replace ==> n in p.entries)
    ensures UploadName(env, p, n)
            == (if FateOf(env, p, n) == Replace then RemoteDelete(env, p, n, p.entries[n].remoteId) else p)
               .(aborted := true)
  {
    RoundBudget(env, p, n, since);
    if FateOf(env, p, n) == Replace {
      var deleted := RemoteDelete(env, p, n, p.entries[n].remoteId);
      DeleteStep(env, p, n, since);
      assert UploadName(env, p, n) == PutFile(env, deleted, n);
      PutBudget(env, deleted, n);
    } else {
      assert UploadName(env, p, n) == PutFile(env, p, n);
      PutBudget(env, p, n);
    }
  }

  lemma {:induction false} UploadsBudget(env: Env, p: Pass, order: seq<string>, since: nat)
    requires !p.aborted && Settled(env, p) && since <= p.tables.lastVersion
    requires Distinct(order) && forall n :: n in order ==> n in env.scan && Uploadable(env, p, n)
    ensures var q, due := UploadAll(env, p, order), |Uploading(env, p, order)|;
            && (q.aborted <==> p.budget < due)
            && (!q.aborted ==> q.budget == p.budget - due)
  {
    if order == [] {
      assert Uploading(env, p, order) == {};
    } else {
      var front, n := order[..|order| - 1], order[|order| - 1];
      FrontOfDistinct(order);
      UploadsBudget(env, p, front, since);
      UploadingLast(env, p, order);
      var f := UploadAll(env, p, front);
      if !f.aborted {
        UploadAllNames(env, p, front, n, since);
        UploadableStill(env, p, f, n, since);
        RoundBudget(env, f, n, since);
      }
    }
  }

  lemma UploadingLast(env: Env, p: Pass, order: seq<string>)
    requires order != [] && order[|order| - 1] !in order[..|order| - 1]
    ensures var front, n := order[..|order| - 1], order[|order| - 1];
            |Uploading(env, p, order)| == |Uploading(env, p, front)| + if Uploads(FateOf(env, p, n)) then 1 else 0
  {
    var front, n := order[..|order| - 1], order[|order| - 1];
    assert order == front + [n];
    assert Uploading(env, p, order) == Uploading(env, p, front) + if Uploads(FateOf(env, p, n)) then {n} else {};
  }

  lemma UploadDueIff(env: Env, c: Client, s: Tables, n: string)
    requires ServerOk(s) && ClientOk(c, s) && PassEnv(env, c, s) && n in env.scan
    ensures UploadDue(env, c, s, n) <==> Uploads(FateFor(env, c, s, n))
  {
    var w := WindowOf(s, c.owner, c.cursor, n);
    SeenLive(env, s, n);
    RowClauses(env, c, s, n);
    OtherClauses(c, s, n);
    DueCases(Slot0(c, n), env.scan[n], w, n, n in env.unreadable);
  }

  lemma OtherClauses(c: Client, s: Tables, n: string)
    ensures (forall k :: k in c.conflicts ==> k.name != n) <==> n !in ConflictNames(c.conflicts)
    ensures (forall t :: t in s.deletions && t.row.owner == c.owner && t.row.name == n ==> t.version <= c.cursor)
            <==> !WindowOf(s, c.owner, c.cursor, n).buried
  {
  }

  /** The two clauses about rows, said of the name's one row. */
  lemma RowClauses(env: Env, c: Client, s: Tables, n: string)
    requires UniqueNames(s.files) && n in env.scan
    ensures var row := FindName(s.files, c.owner, n);
            && ((forall r :: r in s.files && r.owner == c.owner && r.name == n ==>
                   r.version <= c.cursor || r.body == env.scan[n])
                <==> row.None? || row.value.version <= c.cursor || row.value.body == env.scan[n])
            && ((forall r :: r in s.files && r.owner == c.owner ==> r.name != n) <==> row.None?)
  {
    var row := FindName(s.files, c.owner, n);
    if row.Some? {
      FindNameUnique(s.files, row.value);
      assert forall r :: r in s.files && r.owner == c.owner && r.name == n ==> r == row.value;
    }
  }

  lemma DueCases(slot: Slot, local: Content, w: Window, n: string, unreadable: bool)
    requires w.changed ==> w.remote.Some?
    requires w.remote.Some? ==> w.remote.value.hash == Digest(w.remote.value.body)
    requires !slot.deleted && !slot.downloaded
    ensures var served := if w.remote.Some? then Some(w.remote.value.body) else None;
            Uploads(Decide(AfterDiff(slot, Some(local), w, n), Seen(Some(local), unreadable, w.remote, served)))
            <==> && !slot.conflicted && (w.changed ==> w.remote.value.body == local) && !w.buried
                 && (if slot.entry.Some? then slot.entry.value.size != |local| || slot.entry.value.hash != Digest(local)
                     else w.remote.None?)
  {
  }

  // ---- The pass ---------------------------------------------------------------------------

  /** A pass aborts if and only if fewer calls are answered than there are downloads and uploads
      due; the bytes of the files, empty ones included, make no difference. */
  lemma PassAbortsIff(env: Env, c: Client, s: Tables, budget: nat, order: seq<string>, removals: seq<string>)
    requires ServerOk(s) && ClientOk(c, s) && PassEnv(env, c, s) && Orders(env, c, s, budget, order, removals)
    ensures RunPass(env, c, s, budget, order, removals).aborted
            <==> budget < |DownloadsDue(env, c, s)| + |UploadsDue(env, c, s)|
    ensures AfterActions(env, c, s, budget).aborted <==> budget < |DownloadsDue(env, c, s)|
  {
    var a, u := AfterActions(env, c, s, budget), AfterUploads(env, c, s, budget, order);
    DiffServed(env, c, s, StartPass(c, s, budget));
    DiffDownloads(env, c, s);
    ActionsBudget(env, StartPass(c, s, budget), DiffActions(s, c.owner, c.cursor, ManifestOf(env.scan)));
    AbortedStays(env, a, order, removals);
    AbortedStays(env, u, [], removals);
    if !a.aborted {
      UploadsCounted(env, c, s, budget, order);
      if !u.aborted {
        UploadPhase(env, c, s, budget, order, "");
        RemovalPhase(env, u, removals, "", NewCursor(s, c.owner, c.cursor));
      }
    }
  }

  lemma UploadsCounted(env: Env, c: Client, s: Tables, budget: nat, order: seq<string>)
    requires ServerOk(s) && ClientOk(c, s) && PassEnv(env, c, s) && Visits(order, env.scan.Keys)
    requires !AfterActions(env, c, s, budget).aborted
    ensures AfterUploads(env, c, s, budget, order).aborted
            <==> AfterActions(env, c, s, budget).budget < |UploadsDue(env, c, s)|
  {
    var a := AfterActions(env, c, s, budget);
    ActionsTable(env, c, s, budget, "");
    ActionsSettle(env, c, s, budget);
    CursorCovers(s, c.owner, c.cursor);
    UploadsBudget(env, a, order, NewCursor(s, c.owner, c.cursor));
    UploadingDue(env, c, s, budget, order);
  }

  lemma UploadingDue(env: Env, c: Client, s: Tables, budget: nat, order: seq<string>)
    requires ServerOk(s) && ClientOk(c, s) && PassEnv(env, c, s) && Visits(order, env.scan.Keys)
    requires !AfterActions(env, c, s, budget).aborted
    ensures Uploading(env, AfterActions(env, c, s, budget), order) == UploadsDue(env, c, s)
  {
    forall n
      ensures n in Uploading(env, AfterActions(env, c, s, budget), order) <==> n in UploadsDue(env, c, s)
    {
      UploadingIff(env, c, s, budget, order, n);
    }
  }

  lemma UploadingIff(env: Env, c: Client, s: Tables, budget: nat, order: seq<string>, n: string)
    requires ServerOk(s) && ClientOk(c, s) && PassEnv(env, c, s) && Visits(order, env.scan.Keys)
    requires !AfterActions(env, c, s, budget).aborted
    ensures n in Uploading(env, AfterActions(env, c, s, budget), order) <==> n in UploadsDue(env, c, s)
  {
    if n in env.scan {
      ActionsTable(env, c, s, budget, n);
      UploadDueIff(env, c, s, n);
    }
  }

  // ---- Where an aborted pass stops --------------------------------------------------------

  /** `q` is `g` with the pass over for want of calls, and nothing else different, except that a
      row that was to be replaced is gone. */
  ghost predicate StopsAt(env: Env, g: Pass, n: string, replacing: bool, q: Pass) {
    && !g.aborted && g.budget == 0 && (replacing ==> n in g.entries)
    && q == (if replacing then RemoteDelete(env, g, n, g.entries[n].remoteId) else g).(aborted := true)
  }

  /** The action loop stops at the first download it has no call left for, leaving all that was
      done before. */
  lemma {:induction false} ActionsStop(env: Env, p: Pass, actions: seq<Action>) returns (k: nat)
    requires !p.aborted && Served(env, p, actions) && ApplyActions(env, p, actions).aborted
    ensures k < |actions| && actions[k].Download?
    ensures StopsAt(env, ApplyActions(env, p, actions[..k]), actions[k].name, false, ApplyActions(env, p, actions))
  {
    var front := actions[..|actions| - 1];
    ApplyActionsKeepsTables(env, p, front);
    if ApplyActions(env, p, front).aborted {
      k := ActionsStop(env, p, front);
      assert front[..k] == actions[..k];
    } else {
      k := |actions| - 1;
      assert actions[k] in actions;
    }
  }

  /** The upload loop stops at the first upload it has no call left for. */
  lemma {:induction false} UploadsStop(env: Env, p: Pass, order: seq<string>, since: nat) returns (k: nat)
    requires !p.aborted && Settled(env, p) && since <= p.tables.lastVersion
    requires Distinct(order) && forall n :: n in order ==> n in env.scan && Uploadable(env, p, n)
    requires UploadAll(env, p, order).aborted
    ensures k < |order| && Uploads(FateOf(env, p, order[k]))
    ensures StopsAt(env, UploadAll(env, p, order[..k]), order[k], FateOf(env, p, order[k]) == Replace,
                    UploadAll(env, p, order))
  {
    var front, n := order[..|order| - 1], order[|order| - 1];
    FrontOfDistinct(order);
    var f := UploadAll(env, p, front);
    if f.aborted {
      k := UploadsStop(env, p, front, since);
      assert front[..k] == order[..k];
    } else {
      k := |order| - 1;
      LastRoundStops(env, p, front, n, since);
    }
  }

  lemma LastRoundStops(env: Env, p: Pass, front: seq<string>, n: string, since: nat)
    requires !p.aborted && Settled(env, p) && since <= p.tables.lastVersion
    requires Distinct(front) && forall m :: m in front ==> m in env.scan && Uploadable(env, p, m)
    requires n !in front && n in env.scan && Uploadable(env, p, n)
    requires var f := UploadAll(env, p, front); !f.aborted && UploadName(env, f, n).aborted
    ensures var f := UploadAll(env, p, front);
            && Uploads(FateOf(env, p, n))
            && StopsAt(env, f, n, FateOf(env, p, n) == Replace, UploadName(env, f, n))
  {
    UploadAllNames(env, p, front, n, since);
    UploadableStill(env, p, UploadAll(env, p, front), n, since);
    RoundStops(env, UploadAll(env, p, front), n, since);
  }

  /** An aborted pass stops at its first unanswered call and keeps what it has done until then:
      the desktop client all of it, the web client only the files it has written. */
  lemma AbortedPassStops(env: Env, c: Client, s: Tables, budget: nat, order: seq<string>, removals: seq<string>)
    returns (k: nat)
    requires ServerOk(s) && ClientOk(c, s) && PassEnv(env, c, s) && Orders(env, c, s, budget, order, removals)
    requires RunPass(env, c, s, budget, order, removals).aborted
    ensures var p, actions := StartPass(c, s, budget), DiffActions(s, c.owner, c.cursor, ManifestOf(env.scan));
            var a, f := AfterActions(env, c, s, budget), RunPass(env, c, s, budget, order, removals);
            if budget < |DownloadsDue(env, c, s)| then
              k < |actions| && StopsAt(env, ApplyActions(env, p, actions[..k]), actions[k].name, false, f)
            else
              k < |order| && UploadDue(env, c, s, order[k])
              && StopsAt(env, UploadAll(env, a, order[..k]), order[k], order[k] in a.entries, f)
    ensures var f := RunPass(env, c, s, budget, order, removals);
            && DesktopAfter(env, c, s, budget, order, removals)
               == Client(c.owner, f.folder, f.entries,
                         if budget < |DownloadsDue(env, c, s)| then c.cursor else NewCursor(s, c.owner, c.cursor),
                         f.conflicts)
            && WebAfter(env, c, s, budget, order, removals)
               == Client(c.owner, f.folder, c.entries, c.cursor, c.conflicts)
  {
    var p, actions := StartPass(c, s, budget), DiffActions(s, c.owner, c.cursor, ManifestOf(env.scan));
    var a, u := AfterActions(env, c, s, budget), AfterUploads(env, c, s, budget, order);
    PassAbortsIff(env, c, s, budget, order, removals);
    AbortedStays(env, a, order, removals);
    AbortedStays(env, u, [], removals);
    if a.aborted {
      DiffServed(env, c, s, p);
      k := ActionsStop(env, p, actions);
    } else {
      if !u.aborted {
        UploadPhase(env, c, s, budget, order, "");
        RemovalPhase(env, u, removals, "", NewCursor(s, c.owner, c.cursor));
      }
      k := UploadPhaseStops(env, c, s, budget, order);
    }
  }

  lemma UploadPhaseStops(env: Env, c: Client, s: Tables, budget: nat, order: seq<string>) returns (k: nat)
    requires ServerOk(s) && ClientOk(c, s) && PassEnv(env, c, s) && Visits(order, env.scan.Keys)
    requires !AfterActions(env, c, s, budget).aborted && AfterUploads(env, c, s, budget, order).aborted
    ensures var a := AfterActions(env, c, s, budget);
            && k < |order| && UploadDue(env, c, s, order[k])
            && StopsAt(env, UploadAll(env, a, order[..k]), order[k], order[k] in a.entries,
                       AfterUploads(env, c, s, budget, order))
  {
    var a := AfterActions(env, c, s, budget);
    ActionsTable(env, c, s, budget, "");
    ActionsSettle(env, c, s, budget);
    CursorCovers(s, c.owner, c.cursor);
    k := UploadsStop(env, a, order, NewCursor(s, c.owner, c.cursor));
    ActionsTable(env, c, s, budget, order[k]);
    UploadDueIff(env, c, s, order[k]);
    ReplacesTracked(env, a, order[k]);
  }

  lemma ReplacesTracked(env: Env, a: Pass, n: string)
    requires Uploads(FateOf(env, a, n))
    ensures FateOf(env, a, n) == Replace <==> n in a.entries
  {
  }
}
