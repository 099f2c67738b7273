/** The tracking invariant over whole runs: any number of clients, foreign writes, local edits,
    completed and aborted passes, folder switches, resolutions, and deletes that fail unseen. */
module SyncRuns {
  import opened Basics
  import opened FileNames
  import opened Repo
  import opened FileService
  import opened SyncService
  import opened Cursor
  import opened Reconcile
  import opened ReconcileTable
  import opened ReconcilePass
  import opened SyncTheorems
  import opened PassInvariant
  import opened FailedDeletes
  import opened Resolve

  // ---- Resolutions ------------------------------------------------------------------------

  ghost predicate SiteOk(x: Site) {
    ServerOk(x.tables) && ClientOk(x.client, x.tables)
  }

  /** Setting a live entry and dropping the name's conflict, over any plain folder. */
  lemma RecordOk(c: Client, s: Tables, folder: map<string, Content>, n: string, e: Entry, conflicts: seq<Conflict>)
    requires ClientOk(c, s) && EntryLive(s.files, c.owner, n, e)
    requires forall m :: m in folder ==> PlainName(m)
    requires conflicts == c.conflicts || conflicts == WithoutConflict(c.conflicts, n)
    ensures ClientOk(Client(c.owner, folder, c.entries[n := e], c.cursor, conflicts), s)
  {
    SetTracked(s, c.owner, c.cursor, c.entries, n, e);
    WithoutConflictKeeps(c.conflicts, n);
  }

  lemma FolderOk(c: Client, s: Tables, folder: map<string, Content>)
    requires ClientOk(c, s) && forall m :: m in folder ==> PlainName(m)
    ensures ClientOk(c.(folder := folder), s)
  {
  }

  /** A resolution keeps everything that is kept about its client: keep-local when the conflict
      is still current, keep-remote always. */
  lemma KeepLocalOk(x: Site, k: Conflict, budget: nat, desktop: bool)
    requires SiteOk(x) && KnownRow(x.tables, x.client.owner, k.name, k.remoteId)
    requires StillCurrent(x.tables, x.client.owner, k)
    ensures var y := KeepLocal(x, k, budget, desktop);
            SiteOk(y) && Later(x.tables, y.tables)
  {
    var c, t := x.client, Bury(x.tables, x.client.owner, k.remoteId);
    LaterRefl(x.tables);
    BuryKeepsServer(x.tables, x.tables, c.owner, k.remoteId);
    ClientLater(x.tables, t, c);
    if k.name in c.folder && budget > 0 {
      UploadMineOk(x, k, t, desktop);
    }
  }

  lemma UploadMineOk(x: Site, k: Conflict, t: Tables, desktop: bool)
    requires SiteOk(x) && KnownRow(x.tables, x.client.owner, k.name, k.remoteId) && k.name in x.client.folder
    requires StillCurrent(x.tables, x.client.owner, k) && t == Bury(x.tables, x.client.owner, k.remoteId)
    requires ServerOk(t) && Later(x.tables, t)
    ensures var created := CreateFile(t, x.client.owner, k.name, x.client.folder[k.name]);
            && created.Created? && ServerOk(created.tables) && Later(x.tables, created.tables)
            && ClientOk(Client(x.client.owner, x.client.folder,
                               x.client.entries[k.name := EntryFor(x.client.folder[k.name], created.row.id)],
                               x.client.cursor, WithoutConflict(x.client.conflicts, k.name)), created.tables)
  {
    var c := x.client;
    var body := c.folder[k.name];
    BuryKnown(x.tables, c.owner, k, k.name);
    CreateEntry(t, c.owner, k.name, body, k.name);
    CreateKeepsServer(x.tables, t, c.owner, k.name, body);
    var created := CreateFile(t, c.owner, k.name, body);
    ClientLater(x.tables, created.tables, c);
    RecordOk(c, created.tables, c.folder, k.name, EntryFor(body, created.row.id), WithoutConflict(c.conflicts, k.name));
  }

  lemma KeepRemoteOk(x: Site, k: Conflict, budget: nat)
    requires SiteOk(x) && KnownRow(x.tables, x.client.owner, k.name, k.remoteId)
    ensures SiteOk(KeepRemote(x, k, budget)) && KeepRemote(x, k, budget).tables == x.tables
  {
    var c := x.client;
    if FindId(x.tables.files, c.owner, k.remoteId).Some? {
      var body := FindId(x.tables.files, c.owner, k.remoteId).value.body;
      KnownLive(x.tables, c.owner, k.name, k.remoteId);
      RecordOk(c, x.tables, c.folder[k.name := body], k.name, EntryFor(body, k.remoteId),
               WithoutConflict(c.conflicts, k.name));
    }
  }

  /** Keep-both with an unused copy name: every state it goes through is in order. */
  lemma KeepBothOk(x: Site, k: Conflict, date: string, budget: nat, desktop: bool, y: Site)
    requires SiteOk(x) && KnownRow(x.tables, x.client.owner, k.name, k.remoteId)
    requires '.' !in date && '/' !in date
    requires FindName(x.tables.files, x.client.owner, ConflictCopyName(k.name, date)).None?
    requires y in KeepBoth(x, k, date, budget, desktop)
    ensures SiteOk(y) && Later(x.tables, y.tables)
  {
    var copy := ConflictCopyName(k.name, date);
    LaterRefl(x.tables);
    if y == x {
    } else if !Copyable(x, k, copy, desktop) {
      assert y == DropCopy(x, copy);
      FolderOk(x.client, x.tables, x.client.folder - {copy});
    } else {
      ConflictCopyPlain(k.name, date);
      var copied := WriteFile(x, copy, x.client.folder[k.name]);
      if y == copied || y == DropCopy(copied, copy) {
        FolderOk(x.client, x.tables, y.client.folder);
      } else {
        KeepBothUpload(x, k, copy);
        KeepBothSent(x, k, date, budget, desktop, y);
      }
    }
  }

  /** The last states of the trace are on the server that has the copy. */
  lemma KeepBothSent(x: Site, k: Conflict, date: string, budget: nat, desktop: bool, y: Site)
    requires SiteOk(x) && KnownRow(x.tables, x.client.owner, k.name, k.remoteId)
    requires Copyable(x, k, ConflictCopyName(k.name, date), desktop) && budget > 0
        && PlainName(ConflictCopyName(k.name, date))
    requires FindName(x.tables.files, x.client.owner, ConflictCopyName(k.name, date)).None?
    requires y in KeepBoth(x, k, date, budget, desktop)
    requires y != x && y != WriteFile(x, ConflictCopyName(k.name, date), x.client.folder[k.name])
    ensures SiteOk(y) && Later(x.tables, y.tables)
  {
    var copy, edit := ConflictCopyName(k.name, date), x.client.folder[k.name];
    CopySentOk(x, k, copy);
    var c := CreateFile(x.tables, x.client.owner, copy, edit);
    var sent := WriteFile(x, copy, edit).(tables := c.tables);
    InTrace(x, k, date, budget, desktop, y);
    AfterUploadKeeps(x.tables, sent, k, copy, edit, c.row, budget - 1, desktop, y);
  }

  lemma AfterUploadKeeps(s: Tables, sent: Site, k: Conflict, copy: string, edit: Content, row: Row, calls: nat,
                         desktop: bool, y: Site)
    requires SiteOk(sent) && KnownRow(sent.tables, sent.client.owner, k.name, k.remoteId) && Later(s, sent.tables)
    requires FindName(sent.tables.files, sent.client.owner, copy) == Some(row) && row.body == edit
    requires PlainName(k.name) && y in AfterUpload(sent, k, copy, edit, row, calls, desktop)
    ensures SiteOk(y) && Later(s, y.tables)
  {
    AfterUploadOk(sent, k, copy, edit, row, calls, desktop, y);
    AfterUploadTables(sent, k, copy, edit, row, calls, desktop);
  }

  lemma InTrace(x: Site, k: Conflict, date: string, budget: nat, desktop: bool, y: Site)
    requires Copyable(x, k, ConflictCopyName(k.name, date), desktop) && budget > 0
        && y in KeepBoth(x, k, date, budget, desktop)
    requires CreateFile(x.tables, x.client.owner, ConflictCopyName(k.name, date), x.client.folder[k.name]).Created?
    requires y != x && y != WriteFile(x, ConflictCopyName(k.name, date), x.client.folder[k.name])
    ensures var copy, edit := ConflictCopyName(k.name, date), x.client.folder[k.name];
            var c := CreateFile(x.tables, x.client.owner, copy, edit);
            y in AfterUpload(WriteFile(x, copy, edit).(tables := c.tables), k, copy, edit, c.row, budget - 1, desktop)
  {
    TraceIs(x, k, date, budget, desktop);
  }

  lemma TraceIs(x: Site, k: Conflict, date: string, budget: nat, desktop: bool)
    requires Copyable(x, k, ConflictCopyName(k.name, date), desktop) && budget > 0
    requires CreateFile(x.tables, x.client.owner, ConflictCopyName(k.name, date), x.client.folder[k.name]).Created?
    ensures var copy, edit := ConflictCopyName(k.name, date), x.client.folder[k.name];
            var copied, c := WriteFile(x, copy, edit), CreateFile(x.tables, x.client.owner, copy, edit);
            KeepBoth(x, k, date, budget, desktop)
            == [x, copied] + AfterUpload(copied.(tables := c.tables), k, copy, edit, c.row, budget - 1, desktop)
  {
  }

  lemma CopySentOk(x: Site, k: Conflict, copy: string)
    requires SiteOk(x) && k.name in x.client.folder && PlainName(copy)
    requires FindName(x.tables.files, x.client.owner, copy).None?
        && KnownRow(x.tables, x.client.owner, k.name, k.remoteId)
    ensures var edit := x.client.folder[k.name];
            var c := CreateFile(x.tables, x.client.owner, copy, edit);
            && c.Created? && Later(x.tables, c.tables) && SiteOk(WriteFile(x, copy, edit).(tables := c.tables))
            && KnownRow(c.tables, x.client.owner, k.name, k.remoteId)
            && FindName(c.tables.files, x.client.owner, copy) == Some(c.row) && c.row.body == edit
  {
    var edit, owner := x.client.folder[k.name], x.client.owner;
    LaterRefl(x.tables);
    KeepBothUpload(x, k, copy);
    CreateKeepsServer(x.tables, x.tables, owner, copy, edit);
    var t := CreateFile(x.tables, owner, copy, edit).tables;
    ClientLater(x.tables, t, x.client);
    FolderOk(x.client, t, x.client.folder[copy := edit]);
    RowKnownLater(x.tables, t, owner, k.name, k.remoteId);
  }

  lemma AfterUploadOk(sent: Site, k: Conflict, copy: string, edit: Content, row: Row, calls: nat, desktop: bool,
                      y: Site)
    requires SiteOk(sent) && KnownRow(sent.tables, sent.client.owner, k.name, k.remoteId)
    requires FindName(sent.tables.files, sent.client.owner, copy) == Some(row) && row.body == edit
    requires PlainName(k.name) && y in AfterUpload(sent, k, copy, edit, row, calls, desktop)
    ensures SiteOk(y)
  {
    var uploaded := if desktop then SetEntry(sent, copy, EntryFor(edit, row.id)) else sent;
    CopyEntryOk(sent, copy, edit, row);
    EndingsOk(uploaded, k, copy, edit, row);
    AfterUploadCases(sent, k, copy, edit, row, calls, desktop, uploaded, y);
  }

  lemma AfterUploadCases(sent: Site, k: Conflict, copy: string, edit: Content, row: Row, calls: nat, desktop: bool,
                         uploaded: Site, y: Site)
    requires uploaded == if desktop then SetEntry(sent, copy, EntryFor(edit, row.id)) else sent
    requires y in AfterUpload(sent, k, copy, edit, row, calls, desktop)
    ensures var found := FindId(uploaded.tables.files, uploaded.client.owner, k.remoteId);
            || y == uploaded || y == DropCopy(uploaded, copy)
            || (found.Some? && (y == WriteFile(uploaded, k.name, found.value.body)
                                || y == Finish(uploaded, k, copy, edit, row, found.value)))
  {
  }

  /** Whether or not the copy has its entry yet, all that can follow is in order. */
  lemma EndingsOk(uploaded: Site, k: Conflict, copy: string, edit: Content, row: Row)
    requires SiteOk(uploaded) && KnownRow(uploaded.tables, uploaded.client.owner, k.name, k.remoteId)
    requires FindName(uploaded.tables.files, uploaded.client.owner, copy) == Some(row) && row.body == edit
    requires PlainName(k.name)
    ensures SiteOk(DropCopy(uploaded, copy))
    ensures var found := FindId(uploaded.tables.files, uploaded.client.owner, k.remoteId);
            found.Some? ==>
              && SiteOk(WriteFile(uploaded, k.name, found.value.body))
              && SiteOk(Finish(uploaded, k, copy, edit, row, found.value))
  {
    DropOk(uploaded, copy);
    var found := FindId(uploaded.tables.files, uploaded.client.owner, k.remoteId);
    if found.Some? {
      WriteOk(uploaded, k.name, found.value.body);
      FinishOk(uploaded, k, copy, edit, row, found.value);
    }
  }

  lemma DropOk(x: Site, n: string)
    requires SiteOk(x)
    ensures SiteOk(DropCopy(x, n))
  {
    FolderOk(x.client, x.tables, x.client.folder - {n});
  }

  lemma WriteOk(x: Site, n: string, content: Content)
    requires SiteOk(x) && PlainName(n)
    ensures SiteOk(WriteFile(x, n, content))
  {
    FolderOk(x.client, x.tables, x.client.folder[n := content]);
  }

  lemma CopyEntryOk(sent: Site, copy: string, edit: Content, row: Row)
    requires SiteOk(sent) && FindName(sent.tables.files, sent.client.owner, copy) == Some(row) && row.body == edit
    ensures SiteOk(SetEntry(sent, copy, EntryFor(edit, row.id)))
  {
    var c := sent.client;
    RecordOk(c, sent.tables, c.folder, copy, EntryFor(edit, row.id), c.conflicts);
  }

  lemma FinishOk(uploaded: Site, k: Conflict, copy: string, edit: Content, row: Row, remote: Row)
    requires SiteOk(uploaded) && KnownRow(uploaded.tables, uploaded.client.owner, k.name, k.remoteId)
    requires FindName(uploaded.tables.files, uploaded.client.owner, copy) == Some(row) && row.body == edit
    requires FindId(uploaded.tables.files, uploaded.client.owner, k.remoteId) == Some(remote) && PlainName(k.name)
    ensures SiteOk(Finish(uploaded, k, copy, edit, row, remote))
  {
    var c, s := uploaded.client, uploaded.tables;
    var folder, entries := c.folder[k.name := remote.body], c.entries[copy := EntryFor(edit, row.id)];
    KnownLive(s, c.owner, k.name, k.remoteId);
    RecordOk(c, s, folder, copy, EntryFor(edit, row.id), c.conflicts);
    RecordOk(Client(c.owner, folder, entries, c.cursor, c.conflicts), s, folder,
             k.name, EntryFor(remote.body, k.remoteId), WithoutConflict(c.conflicts, k.name));
  }

  // ---- Runs -------------------------------------------------------------------------------

  datatype World = World(tables: Tables, clients: seq<Client>)

  /** Gap uses up values of the two sequences, as failed inserts do; `lost` are the names whose
      best-effort delete fails. */
  datatype Step =
    | Upload(owner: nat, filename: string, body: Content)
    | Remove(owner: nat, id: nat)
    | Gap(ids: nat, versions: nat)
    | Edit(client: nat, name: string, content: Content)
    | Erased(client: nat, name: string)
    | Switch(client: nat, folder: map<string, Content>)
    | Sync(client: nat, unreadable: set<string>, order: seq<string>, removals: seq<string>, budget: nat,
           lost: set<string>, desktop: bool)
    | Resolve(client: nat, conflict: Conflict, choice: Choice, budget: nat, desktop: bool)

  /** Mine is `lost` when its best-effort delete fails. */
  datatype Choice = Mine(lost: bool) | Theirs | Both(date: string)

  function EnvOf(c: Client, s: Tables, unreadable: set<string>): Env {
    Env(c.owner, Scan(c.folder, unreadable), unreadable, LiveByName(s.files, c.owner))
  }

  /** A step that can happen: it names an existing client and plain file names, a pass visits
      what it has to visit, and a date has no dot or slash. */
  ghost predicate Enabled(w: World, step: Step) {
    match step
    case Upload(_, _, _) => true
    case Remove(_, _) => true
    case Gap(_, _) => true
    case Edit(i, name, _) => i < |w.clients| && PlainName(name)
    case Erased(i, _) => i < |w.clients|
    case Switch(i, folder) => i < |w.clients| && forall n :: n in folder ==> PlainName(n)
    case Sync(i, unreadable, order, removals, budget, lost, _) =>
      && i < |w.clients| && |LiveByName(w.tables.files, w.clients[i].owner)| <= LIST_LIMIT
      && OrdersLosing(EnvOf(w.clients[i], w.tables, unreadable), w.clients[i], w.tables, budget, order, removals, lost)
    case Resolve(i, k, choice, _, _) =>
      && i < |w.clients| && k in w.clients[i].conflicts
      && (choice.Both? ==> '.' !in choice.date && '/' !in choice.date)
  }

  /** A resolution that records a row under a name the row does not have, because the server
      stored it under a numbered one: keep-local when the name's row is another than the one
      deleted, or its delete failed; keep-both when the copy's name is taken. */
  predicate Misnames(x: Site, k: Conflict, choice: Choice, budget: nat, desktop: bool) {
    var owner := x.client.owner;
    match choice
    case Mine(lost) =>
      var t := if lost then x.tables else Bury(x.tables, owner, k.remoteId);
      && FindName(t.files, owner, k.name).Some? && k.name in x.client.folder && budget > 0
      && CreateFile(t, owner, k.name, x.client.folder[k.name]).Created?
    case Theirs => false
    case Both(date) =>
      && FindName(x.tables.files, owner, ConflictCopyName(k.name, date)).Some?
      && CopyRecorded(x, k, ConflictCopyName(k.name, date), budget, desktop)
  }

  /** No row is recorded under a name it does not have: neither by a resolution, nor by a pass
      in which the delete before an upload fails. */
  ghost predicate Harmless(w: World, step: Step)
    requires Enabled(w, step)
  {
    match step
    case Sync(i, unreadable, order, removals, budget, lost, desktop) =>
      !PassMisnames(EnvOf(w.clients[i], w.tables, unreadable), w.clients[i], w.tables, budget, order, removals, lost,
                    desktop)
    case Resolve(i, k, choice, budget, desktop) =>
      !Misnames(Site(w.clients[i], w.tables), k, choice, budget, desktop)
    case _ => true
  }

  /** Keep-local when its delete fails. */
  function KeepLocalLosing(x: Site, k: Conflict, budget: nat): Site {
    if k.name !in x.client.folder || budget == 0 then x else UploadMine(x, k)
  }

  function Resolved(x: Site, k: Conflict, choice: Choice, budget: nat, desktop: bool): Site {
    match choice
    case Mine(lost) => if lost then KeepLocalLosing(x, k, budget) else KeepLocal(x, k, budget, desktop)
    case Theirs => KeepRemote(x, k, budget)
    case Both(date) =>
      var trace := KeepBoth(x, k, date, budget, desktop);
      trace[|trace| - 1]
  }

  ghost function Take(w: World, step: Step): World
    requires Enabled(w, step)
  {
    match step
    case Upload(owner, filename, body) =>
      (match CreateFile(w.tables, owner, filename, body)
       case Created(tables, _) => w.(tables := tables)
       case InvalidFilename => w
       case NamesExhausted => w)
    case Remove(owner, id) => w.(tables := Bury(w.tables, owner, id))
    case Gap(ids, versions) => w.(tables := Burn(w.tables, ids, versions))
    case Edit(i, name, content) =>
      var c := w.clients[i];
      w.(clients := w.clients[i := c.(folder := c.folder[name := content])])
    case Erased(i, name) =>
      var c := w.clients[i];
      w.(clients := w.clients[i := c.(folder := c.folder - {name})])
    case Switch(i, folder) =>
      w.(clients := w.clients[i := SelectFolder(w.clients[i], folder)])
    case Sync(i, unreadable, order, removals, budget, lost, desktop) =>
      var c := w.clients[i];
      var env := EnvOf(c, w.tables, unreadable);
      World(RunPassLosing(env, c, w.tables, budget, order, removals, lost).tables,
            w.clients[i := ClientLosing(env, c, w.tables, budget, order, removals, lost, desktop)])
    case Resolve(i, k, choice, budget, desktop) =>
      var y := Resolved(Site(w.clients[i], w.tables), k, choice, budget, desktop);
      World(y.tables, w.clients[i := y.client])
  }

  /** Selecting a different folder forgets everything about the old one. */
  function SelectFolder(c: Client, folder: map<string, Content>): Client {
    Client(c.owner, folder, map[], 0, [])
  }

  ghost predicate WorldOk(w: World) {
    ServerOk(w.tables) && forall i :: 0 <= i < |w.clients| ==> ClientOk(w.clients[i], w.tables)
  }

  lemma WritesKept(w: World, tables: Tables)
    requires WorldOk(w) && ServerOk(tables) && Later(w.tables, tables)
    ensures WorldOk(w.(tables := tables))
  {
    forall j | 0 <= j < |w.clients|
      ensures ClientOk(w.clients[j], tables)
    {
      ClientLater(w.tables, tables, w.clients[j]);
    }
  }

  lemma OthersKept(w: World, tables: Tables, i: nat, next: Client)
    requires WorldOk(w) && ServerOk(tables) && Later(w.tables, tables) && i < |w.clients| && ClientOk(next, tables)
    ensures WorldOk(World(tables, w.clients[i := next]))
  {
    WritesKept(w, tables);
  }

  /** A row under another name than its entry's breaks the tracking. */
  lemma WrongNameUntracked(c: Client, t: Tables, n: string, row: Row)
    requires Valid(t) && row in t.files && row.name != n
    requires n in c.entries && c.entries[n].remoteId == row.id
    ensures !ClientOk(c, t)
  {
    assert !EntryLive(t.files, c.owner, n, c.entries[n]);
    assert !EntryBuried(t.deletions, c.owner, n, c.entries[n], c.cursor);
  }

  lemma MineKeepsIff(x: Site, k: Conflict, budget: nat, desktop: bool)
    requires SiteOk(x) && k in x.client.conflicts
    ensures var y := KeepLocal(x, k, budget, desktop);
            && (SiteOk(y) <==> !Misnames(x, k, Mine(false), budget, desktop))
            && (SiteOk(y) ==> Later(x.tables, y.tables))
  {
    var owner := x.client.owner;
    var t := Bury(x.tables, owner, k.remoteId);
    BuryKnown(x.tables, owner, k, k.name);
    if Misnames(x, k, Mine(false), budget, desktop) {
      StaleMineBreaks(x, k, budget, desktop);
    } else if StillCurrent(x.tables, owner, k) {
      KeepLocalOk(x, k, budget, desktop);
    } else {
      LaterRefl(x.tables);
      BuryKeepsServer(x.tables, x.tables, owner, k.remoteId);
      ClientLater(x.tables, t, x.client);
      assert KeepLocal(x, k, budget, desktop) in [x, x.(tables := t)];
    }
  }

  lemma StaleMineBreaks(x: Site, k: Conflict, budget: nat, desktop: bool)
    requires SiteOk(x) && k in x.client.conflicts && Misnames(x, k, Mine(false), budget, desktop)
    ensures !SiteOk(KeepLocal(x, k, budget, desktop))
  {
    BuryKnown(x.tables, x.client.owner, k, k.name);
    TakenMineBreaks(x.(tables := Bury(x.tables, x.client.owner, k.remoteId)), k);
  }

  /** Uploading to a taken name misnames what it records. */
  lemma TakenMineBreaks(x: Site, k: Conflict)
    requires Valid(x.tables) && k.name in x.client.folder && FindName(x.tables.files, x.client.owner, k.name).Some?
    requires CreateFile(x.tables, x.client.owner, k.name, x.client.folder[k.name]).Created?
    ensures !SiteOk(UploadMine(x, k))
  {
    var owner, body, y := x.client.owner, x.client.folder[k.name], UploadMine(x, k);
    CreatePicksLeastFree(x.tables, owner, k.name, body);
    var row := CreateFile(x.tables, owner, k.name, body).row;
    assert Taken(x.tables.files, owner, k.name) && row.name != k.name;
    assert row in y.tables.files;
    WrongNameUntracked(y.client, y.tables, k.name, row);
  }

  lemma LostMineKeepsIff(x: Site, k: Conflict, budget: nat, desktop: bool)
    requires SiteOk(x) && k in x.client.conflicts
    ensures var y := KeepLocalLosing(x, k, budget);
            && (SiteOk(y) <==> !Misnames(x, k, Mine(true), budget, desktop))
            && (SiteOk(y) ==> Later(x.tables, y.tables))
  {
    var owner := x.client.owner;
    LaterRefl(x.tables);
    if Misnames(x, k, Mine(true), budget, desktop) {
      TakenMineBreaks(x, k);
    } else if FindName(x.tables.files, owner, k.name).None? {
      NothingToDelete(x.tables, owner, k);
      KeepLocalOk(x, k, budget, desktop);
      if k.name in x.client.folder && budget > 0 {
        assert x.(tables := x.tables) == x;
      }
    } else {
      assert KeepLocalLosing(x, k, budget) == x;
    }
  }

  lemma NothingToDelete(s: Tables, owner: nat, k: Conflict)
    requires Valid(s) && KnownRow(s, owner, k.name, k.remoteId) && FindName(s.files, owner, k.name).None?
    ensures Bury(s, owner, k.remoteId) == s
  {
  }

  lemma BothKeepsIff(x: Site, k: Conflict, date: string, budget: nat, desktop: bool)
    requires SiteOk(x) && k in x.client.conflicts && '.' !in date && '/' !in date
    ensures var y := Resolved(x, k, Both(date), budget, desktop);
            && (SiteOk(y) <==> !Misnames(x, k, Both(date), budget, desktop))
            && (SiteOk(y) ==> Later(x.tables, y.tables))
  {
    var owner, copy := x.client.owner, ConflictCopyName(k.name, date);
    ConflictCopyInvertible(k.name, date);
    if k.name in x.client.folder {
      ConflictCopyPlain(k.name, date);
    }
    if Misnames(x, k, Both(date), budget, desktop) {
      CopyRecordedAs(x, k, date, budget, desktop);
      CopyRow(x, k, copy);
      var y, row := Resolved(x, k, Both(date), budget, desktop),
          CreateFile(x.tables, owner, copy, x.client.folder[k.name]).row;
      WrongNameUntracked(y.client, y.tables, copy, row);
    } else if FindName(x.tables.files, owner, copy).None? {
      KeepBothOk(x, k, date, budget, desktop, Resolved(x, k, Both(date), budget, desktop));
    } else {
      UnrecordedOk(x, k, date, budget, desktop);
    }
  }

  /** A keep-both that never records its copy ends as a failure. */
  lemma UnrecordedOk(x: Site, k: Conflict, date: string, budget: nat, desktop: bool)
    requires SiteOk(x) && KnownRow(x.tables, x.client.owner, k.name, k.remoteId)
    requires k.name in x.client.folder ==> PlainName(ConflictCopyName(k.name, date))
    requires !CopyRecorded(x, k, ConflictCopyName(k.name, date), budget, desktop)
    ensures var y := Resolved(x, k, Both(date), budget, desktop); SiteOk(y) && Later(x.tables, y.tables)
  {
    var copy := ConflictCopyName(k.name, date);
    if Copyable(x, k, copy, desktop) {
      if CreateFile(x.tables, x.client.owner, copy, x.client.folder[k.name]).Created? && budget > 0 {
        SentThenDropped(x, k, date, budget, desktop);
      } else {
        var copied := WriteFile(x, copy, x.client.folder[k.name]);
        assert Resolved(x, k, Both(date), budget, desktop) == DropCopy(copied, copy);
        WriteOk(x, copy, x.client.folder[k.name]);
        DroppedOk(x.tables, copied, copy);
      }
    } else {
      assert Resolved(x, k, Both(date), budget, desktop) == DropCopy(x, copy);
      DroppedOk(x.tables, x, copy);
    }
  }

  lemma DroppedOk(s: Tables, x: Site, copy: string)
    requires SiteOk(x) && x.tables == s
    ensures SiteOk(DropCopy(x, copy)) && Later(s, DropCopy(x, copy).tables)
  {
    LaterRefl(s);
    DropOk(x, copy);
  }

  lemma SentThenDropped(x: Site, k: Conflict, date: string, budget: nat, desktop: bool)
    requires SiteOk(x) && KnownRow(x.tables, x.client.owner, k.name, k.remoteId)
    requires var copy := ConflictCopyName(k.name, date);
             PlainName(copy) && Copyable(x, k, copy, desktop) && !CopyRecorded(x, k, copy, budget, desktop)
             && budget > 0 && CreateFile(x.tables, x.client.owner, copy, x.client.folder[k.name]).Created?
    ensures var y := Resolved(x, k, Both(date), budget, desktop); SiteOk(y) && Later(x.tables, y.tables)
  {
    var c, copy := x.client, ConflictCopyName(k.name, date);
    var edit := c.folder[k.name];
    var created := CreateFile(x.tables, c.owner, copy, edit);
    LaterRefl(x.tables);
    CreateKeepsServer(x.tables, x.tables, c.owner, copy, edit);
    ClientLater(x.tables, created.tables, c);
    FolderOk(c, created.tables, c.folder[copy := edit] - {copy});
    CopyRow(x, k, copy);
    TraceEnds(x, k, date, budget, desktop);
  }

  /** Resolving a conflict, deletes failing or not, keeps the client in order exactly when it
      records no misnamed row. */
  lemma ResolveKeepsIff(x: Site, k: Conflict, choice: Choice, budget: nat, desktop: bool)
    requires SiteOk(x) && k in x.client.conflicts
    requires choice.Both? ==> '.' !in choice.date && '/' !in choice.date
    ensures var y := Resolved(x, k, choice, budget, desktop);
            && (SiteOk(y) <==> !Misnames(x, k, choice, budget, desktop))
            && (SiteOk(y) ==> Later(x.tables, y.tables))
  {
    match choice
    case Mine(lost) =>
      if lost {
        LostMineKeepsIff(x, k, budget, desktop);
      } else {
        MineKeepsIff(x, k, budget, desktop);
      }
    case Theirs =>
      LaterRefl(x.tables);
      KeepRemoteOk(x, k, budget);
    case Both(date) => BothKeepsIff(x, k, date, budget, desktop);
  }

  lemma WriteKeepsWorld(w: World, step: Step)
    requires WorldOk(w) && Enabled(w, step) && (step.Upload? || step.Remove? || step.Gap?)
    ensures WorldOk(Take(w, step))
  {
    LaterRefl(w.tables);
    match step
    case Upload(owner, filename, body) =>
      if CreateFile(w.tables, owner, filename, body).Created? {
        CreateKeepsServer(w.tables, w.tables, owner, filename, body);
        WritesKept(w, CreateFile(w.tables, owner, filename, body).tables);
      }
    case Remove(owner, id) =>
      BuryKeepsServer(w.tables, w.tables, owner, id);
      WritesKept(w, Bury(w.tables, owner, id));
    case Gap(ids, versions) =>
      BurnLater(w.tables, w.tables, ids, versions);
      WritesKept(w, Burn(w.tables, ids, versions));
  }

  lemma LocalKeepsWorld(w: World, step: Step)
    requires WorldOk(w) && Enabled(w, step) && (step.Edit? || step.Erased? || step.Switch?)
    ensures WorldOk(Take(w, step))
  {
  }

  lemma SyncKeepsWorldIff(w: World, step: Step)
    requires WorldOk(w) && Enabled(w, step) && step.Sync?
    ensures WorldOk(Take(w, step)) <==> Harmless(w, step)
  {
    var Sync(i, unreadable, order, removals, budget, lost, desktop) := step;
    var c := w.clients[i];
    var env := EnvOf(c, w.tables, unreadable);
    LosingKeepsServer(env, c, w.tables, budget, order, removals, lost);
    LosingKeepsClientIff(env, c, w.tables, budget, order, removals, lost, desktop);
    if Harmless(w, step) {
      OthersKept(w, Take(w, step).tables, i, Take(w, step).clients[i]);
    } else {
      assert Take(w, step).clients[i] == ClientLosing(env, c, w.tables, budget, order, removals, lost, desktop);
    }
  }

  lemma ResolveKeepsWorldIff(w: World, step: Step)
    requires WorldOk(w) && Enabled(w, step) && step.Resolve?
    ensures WorldOk(Take(w, step)) <==> Harmless(w, step)
  {
    var Resolve(i, k, choice, budget, desktop) := step;
    var x := Site(w.clients[i], w.tables);
    ResolveKeepsIff(x, k, choice, budget, desktop);
    var y := Resolved(x, k, choice, budget, desktop);
    if Harmless(w, step) {
      OthersKept(w, y.tables, i, y.client);
    } else {
      assert Take(w, step).clients[i] == y.client;
    }
  }

  /** Every step of everybody keeps the tracking invariant, except exactly those that record a
      misnamed row. */
  lemma StepKeepsWorldIff(w: World, step: Step)
    requires WorldOk(w) && Enabled(w, step)
    ensures WorldOk(Take(w, step)) <==> Harmless(w, step)
  {
    match step
    case Upload(_, _, _) => WriteKeepsWorld(w, step);
    case Remove(_, _) => WriteKeepsWorld(w, step);
    case Gap(_, _) => WriteKeepsWorld(w, step);
    case Edit(_, _, _) => LocalKeepsWorld(w, step);
    case Erased(_, _) => LocalKeepsWorld(w, step);
    case Switch(_, _) => LocalKeepsWorld(w, step);
    case Sync(_, _, _, _, _, _, _) => SyncKeepsWorldIff(w, step);
    case Resolve(_, _, _, _, _) => ResolveKeepsWorldIff(w, step);
  }

  /** A run: each step enabled in the state the earlier ones left. */
  ghost predicate IsRun(w: World, steps: seq<Step>)
    decreases |steps|
  {
    steps == [] || (Enabled(w, steps[0]) && IsRun(Take(w, steps[0]), steps[1..]))
  }

  /** The invariant holds in every state of the run. */
  ghost predicate AlwaysOk(w: World, steps: seq<Step>)
    requires IsRun(w, steps)
    decreases |steps|
  {
    WorldOk(w) && (steps == [] || AlwaysOk(Take(w, steps[0]), steps[1..]))
  }

  ghost predicate AllHarmless(w: World, steps: seq<Step>)
    requires IsRun(w, steps)
    decreases |steps|
  {
    steps == [] || (Harmless(w, steps[0]) && AllHarmless(Take(w, steps[0]), steps[1..]))
  }

  /** Over all runs, in every state, every tracked entry describes a row created under that
      name with that hash, live or buried after its client's cursor, if and only if no
      pass or resolution on the way recorded a misnamed row. */
  lemma {:induction false} TrackingOverRuns(w: World, steps: seq<Step>)
    requires WorldOk(w) && IsRun(w, steps)
    ensures AlwaysOk(w, steps) <==> AllHarmless(w, steps)
    decreases |steps|
  {
    if steps != [] {
      StepKeepsWorldIff(w, steps[0]);
      if Harmless(w, steps[0]) {
        TrackingOverRuns(Take(w, steps[0]), steps[1..]);
      }
    }
  }

  lemma FreshWorldOk(clients: seq<Client>)
    requires forall c :: c in clients ==> c.entries == map[] && c.cursor == 0 && c.conflicts == []
                                          && forall n :: n in c.folder ==> PlainName(n)
    ensures WorldOk(World(EMPTY_TABLES, clients))
  {
  }
}
