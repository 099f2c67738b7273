/** One sync pass against the real server: what every prefix of it keeps about its client, and
    its refinement to the decision table. */
module SyncTheorems {
  import opened Basics
  import opened FileNames
  import opened Repo
  import opened SyncService
  import opened Reconcile
  import opened ReconcileTable
  import opened ReconcilePass

  datatype Client = Client(owner: nat, folder: map<string, Content>, entries: map<string, Entry>,
                           cursor: nat, conflicts: seq<Conflict>)

  function StartPass(c: Client, s: Tables, budget: nat): Pass {
    Pass(c.folder, c.entries, c.conflicts, s, ConflictNames(c.conflicts), {}, {}, [], budget, false)
  }

  /** The pass just after the server's actions, after the uploads, and at its end. */
  function AfterActions(env: Env, c: Client, s: Tables, budget: nat): Pass {
    ApplyActions(env, StartPass(c, s, budget), DiffActions(s, c.owner, c.cursor, ManifestOf(env.scan)))
  }

  function AfterUploads(env: Env, c: Client, s: Tables, budget: nat, order: seq<string>): Pass
    requires forall n :: n in order ==> n in env.scan
  {
    UploadAll(env, AfterActions(env, c, s, budget), order)
  }

  function RunPass(env: Env, c: Client, s: Tables, budget: nat, order: seq<string>, removals: seq<string>): Pass
    requires forall n :: n in order ==> n in env.scan
  {
    RemoveAll(env, AfterUploads(env, c, s, budget, order), removals)
  }

  /** The desktop client keeps whatever it changed, and moves its cursor once the actions are
      through. */
  function DesktopAfter(env: Env, c: Client, s: Tables, budget: nat, order: seq<string>, removals: seq<string>): Client
    requires forall n :: n in order ==> n in env.scan
  {
    var f := RunPass(env, c, s, budget, order, removals);
    var cursor := if AfterActions(env, c, s, budget).aborted then c.cursor else NewCursor(s, c.owner, c.cursor);
    Client(c.owner, f.folder, f.entries, cursor, f.conflicts)
  }

  /** The web client works on copies: a pass that throws changes only the folder and the server. */
  function WebAfter(env: Env, c: Client, s: Tables, budget: nat, order: seq<string>, removals: seq<string>): Client
    requires forall n :: n in order ==> n in env.scan
  {
    var f := RunPass(env, c, s, budget, order, removals);
    if f.aborted then c.(folder := f.folder)
    else Client(c.owner, f.folder, f.entries, NewCursor(s, c.owner, c.cursor), f.conflicts)
  }

  /** The id was given to a row of that name; the row may be gone by now. */
  ghost predicate KnownRow(s: Tables, owner: nat, n: string, id: nat) {
    || (exists r :: r in s.files && r.id == id && r.owner == owner && r.name == n)
    || (exists t :: t in s.deletions && t.row.id == id && t.row.owner == owner && t.row.name == n)
  }

  ghost predicate ConflictsKnown(s: Tables, owner: nat, conflicts: seq<Conflict>) {
    forall k :: k in conflicts ==> KnownRow(s, owner, k.name, k.remoteId)
  }

  /** What every run keeps about a client. */
  ghost predicate ClientOk(c: Client, s: Tables) {
    && c.cursor <= s.lastVersion
    && Tracked(s, c.owner, c.cursor, c.entries)
    && (forall n :: n in c.folder ==> PlainName(n))
    && UniqueConflicts(c.conflicts) && ConflictsKnown(s, c.owner, c.conflicts)
  }

  ghost predicate ServerOk(s: Tables) {
    && Valid(s) && Hashed(s.files)
    && (forall r :: r in s.files ==> PlainName(r.name))
  }

  /** A pass by this client now: it scanned its folder, and got the complete listing. */
  ghost predicate PassEnv(env: Env, c: Client, s: Tables) {
    env.owner == c.owner && env.scan == Scan(c.folder, env.unreadable) && Listed(env, s)
  }

  ghost predicate Orders(env: Env, c: Client, s: Tables, budget: nat, order: seq<string>, removals: seq<string>) {
    && Visits(order, env.scan.Keys)
    && Visits(removals, RemovedLocally(env, AfterUploads(env, c, s, budget, order)))
  }

  // ---- After the actions ------------------------------------------------------------------

  /** What the action loop keeps about its client, aborted or not. */
  ghost predicate Steady(p: Pass, owner: nat, since: nat) {
    && Tracked(p.tables, owner, since, p.entries)
    && (forall n :: n in p.folder ==> PlainName(n))
    && ConflictsKnown(p.tables, owner, p.conflicts)
  }

  lemma {:induction false} ActionsTracked(env: Env, p: Pass, actions: seq<Action>, since: nat)
    requires ServerOk(p.tables) && Listed(env, p.tables) && Steady(p, env.owner, since)
    ensures Steady(ApplyActions(env, p, actions), env.owner, since)
  {
    if actions != [] {
      var front := actions[..|actions| - 1];
      ActionsTracked(env, p, front, since);
      ApplyActionsKeepsTables(env, p, front);
      ActionTracked(env, ApplyActions(env, p, front), actions[|actions| - 1], since);
    }
  }

  lemma ActionTracked(env: Env, p: Pass, a: Action, since: nat)
    requires ServerOk(p.tables) && Listed(env, p.tables) && Steady(p, env.owner, since)
    ensures Steady(ApplyAction(env, p, a), env.owner, since)
  {
    match a
    case Download(name, _) => DownloadTracked(env, p, name, since);
    case DeleteLocal(_, _) =>
    case Clash(name, _, details) => ClashTracked(env, p, name, details, since);
  }

  lemma SetTracked(s: Tables, owner: nat, cursor: nat, entries: map<string, Entry>, n: string, e: Entry)
    requires Tracked(s, owner, cursor, entries) && EntryLive(s.files, owner, n, e)
    ensures Tracked(s, owner, cursor, entries[n := e])
  {
  }

  lemma DownloadTracked(env: Env, p: Pass, name: string, since: nat)
    requires ServerOk(p.tables) && Listed(env, p.tables) && Steady(p, env.owner, since)
    ensures Steady(ApplyDownload(env, p, name), env.owner, since)
  {
    InMirrorIff(p.tables.files, env.owner, name);
    if name in env.remote {
      var row := env.remote[name];
      FindIdUnique(p.tables.files, row);
      SetTracked(p.tables, env.owner, since, p.entries, name, EntryFor(row.body, row.id));
      assert PlainName(row.name);
    }
  }

  lemma ClashTracked(env: Env, p: Pass, name: string, details: Option<nat>, since: nat)
    requires ServerOk(p.tables) && Listed(env, p.tables) && Steady(p, env.owner, since)
    ensures Steady(ApplyClash(env, p, name, details), env.owner, since)
  {
    if details.Some? && name in env.scan && ConflictId(env, p, name).Some? {
      var id := ConflictId(env, p, name).value;
      InMirrorIff(p.tables.files, env.owner, name);
      ClashKnown(env, p, name, since);
      UpsertMembers(p.conflicts, Conflict(name, id, |env.scan[name]|, details.value));
    }
  }

  lemma ClashKnown(env: Env, p: Pass, n: string, since: nat)
    requires Listed(env, p.tables) && Tracked(p.tables, env.owner, since, p.entries) && ConflictId(env, p, n).Some?
    ensures KnownRow(p.tables, env.owner, n, ConflictId(env, p, n).value)
  {
  }

  /** The decision table's input for a name, after the actions. */
  ghost function Slot0(c: Client, n: string): Slot {
    Slot(At(c.folder, n), At(c.entries, n), ConflictOf(c.conflicts, n), n in ConflictNames(c.conflicts), false, false)
  }

  ghost function Slot1(env: Env, c: Client, s: Tables, n: string): Slot {
    AfterDiff(Slot0(c, n), At(env.scan, n), WindowOf(s, c.owner, c.cursor, n), n)
  }

  ghost function FateFor(env: Env, c: Client, s: Tables, n: string): Fate {
    Decide(Slot1(env, c, s, n), SeenOf(env, s.files, n))
  }

  lemma ActionsTable(env: Env, c: Client, s: Tables, budget: nat, n: string)
    requires Valid(s) && PassEnv(env, c, s)
    requires !AfterActions(env, c, s, budget).aborted
    ensures SlotOf(AfterActions(env, c, s, budget), n) == Slot1(env, c, s, n)
    ensures AfterActions(env, c, s, budget).tables == s
    ensures AfterActions(env, c, s, budget).removals == []
  {
    var p, actions := StartPass(c, s, budget), DiffActions(s, c.owner, c.cursor, ManifestOf(env.scan));
    ApplyActionsKeepsTables(env, p, actions);
    ActionsOnSlot(env, p, actions, n);
    DiffOnSlot(env, s, c.cursor, SlotOf(p, n), n);
  }

  /** Once the actions are through, every remaining entry's row is live: an entry whose row was
      buried since the cursor has just been dropped by its tombstone. */
  lemma ActionsSettle(env: Env, c: Client, s: Tables, budget: nat)
    requires ServerOk(s) && ClientOk(c, s) && PassEnv(env, c, s)
    requires !AfterActions(env, c, s, budget).aborted
    ensures Settled(env, AfterActions(env, c, s, budget))
    ensures forall n :: n in env.scan ==> Uploadable(env, AfterActions(env, c, s, budget), n)
  {
    var a := AfterActions(env, c, s, budget);
    ActionsTable(env, c, s, budget, "");
    forall n | n in a.entries
      ensures EntryLive(s.files, c.owner, n, a.entries[n])
    {
      ActionsTable(env, c, s, budget, n);
      EntrySettles(env, c, s, n);
    }
    forall n | n in env.scan
      ensures Uploadable(env, a, n)
    {
      ActionsTable(env, c, s, budget, n);
      InMirrorIff(s.files, env.owner, n);
      assert n in c.folder;
      ScannedFileStays(env, c, s, n);
      assert At(a.folder, n) == Slot1(env, c, s, n).file;
    }
  }

  lemma EntrySettles(env: Env, c: Client, s: Tables, n: string)
    requires Valid(s) && Hashed(s.files) && ClientOk(c, s)
    requires Slot1(env, c, s, n).entry.Some?
    ensures EntryLive(s.files, c.owner, n, Slot1(env, c, s, n).entry.value)
  {
  }

  lemma ScannedFileStays(env: Env, c: Client, s: Tables, n: string)
    requires Hashed(s.files) && PassEnv(env, c, s) && n in env.scan
    ensures var slot := Slot1(env, c, s, n);
            !slot.deleted ==> slot.file == Some(env.scan[n])
  {
  }

  // ---- The whole pass ---------------------------------------------------------------------

  lemma {:induction false} AbortedStays(env: Env, p: Pass, order: seq<string>, removals: seq<string>)
    requires forall n :: n in order ==> n in env.scan
    ensures p.aborted ==> UploadAll(env, p, order) == p && RemoveAll(env, p, removals) == p
    decreases |order| + |removals|
  {
    if order != [] {
      AbortedStays(env, p, order[..|order| - 1], removals);
    } else if removals != [] {
      AbortedStays(env, p, order, removals[..|removals| - 1]);
    }
  }

  lemma UploadPhase(env: Env, c: Client, s: Tables, budget: nat, order: seq<string>, n: string)
    requires ServerOk(s) && ClientOk(c, s) && PassEnv(env, c, s) && Visits(order, env.scan.Keys)
    requires !AfterActions(env, c, s, budget).aborted
    ensures var a, u := AfterActions(env, c, s, budget), AfterUploads(env, c, s, budget, order);
            var since := NewCursor(s, c.owner, c.cursor);
            && Sound(env, a, u, since) && since <= u.tables.lastVersion
            && (!u.aborted ==> Settled(env, u))
            && (!u.aborted ==> if n in env.scan then Fulfilled(env, a, u, n, FateOf(env, a, n), since)
                               else Untouched(env, a, u, n, since))
  {
    ActionsTable(env, c, s, budget, n);
    ActionsSettle(env, c, s, budget);
    CursorCovers(s, c.owner, c.cursor);
    UploadAllNames(env, AfterActions(env, c, s, budget), order, n, NewCursor(s, c.owner, c.cursor));
  }

  lemma RemovalPhase(env: Env, u: Pass, removals: seq<string>, n: string, since: nat)
    requires !u.aborted && Settled(env, u) && since <= u.tables.lastVersion
    requires Visits(removals, RemovedLocally(env, u))
    ensures var f := RemoveAll(env, u, removals);
            && !f.aborted && Sound(env, u, f, since)
            && (if n in RemovedLocally(env, u) then Fulfilled(env, u, f, n, Drop, since)
                  else Untouched(env, u, f, n, since))
  {
    RemoveAllNames(env, u, removals, n, since);
  }

  /** The decision table: a completed pass against the real server leaves every name as that
      name's own scan, entry, conflict, live row and window decide. `since` is the new cursor. */
  lemma PassTable(env: Env, c: Client, s: Tables, budget: nat, order: seq<string>, removals: seq<string>, n: string)
    requires ServerOk(s) && ClientOk(c, s) && PassEnv(env, c, s) && Orders(env, c, s, budget, order, removals)
    requires !RunPass(env, c, s, budget, order, removals).aborted
    ensures var a, f := AfterActions(env, c, s, budget), RunPass(env, c, s, budget, order, removals);
            var since := NewCursor(s, c.owner, c.cursor);
            && !a.aborted && a.tables == s && SlotOf(a, n) == Slot1(env, c, s, n)
            && Fulfilled(env, a, f, n, FateFor(env, c, s, n), since)
            && Sound(env, a, f, since)
  {
    var a, u := AfterActions(env, c, s, budget), AfterUploads(env, c, s, budget, order);
    var since := NewCursor(s, c.owner, c.cursor);
    AbortedStays(env, a, order, removals);
    AbortedStays(env, u, [], removals);
    ActionsTable(env, c, s, budget, n);
    UploadPhase(env, c, s, budget, order, n);
    RemovalPhase(env, u, removals, n, since);
    CombineFates(env, a, u, RunPass(env, c, s, budget, order, removals), n, since);
  }

  lemma LeavesRemovals(env: Env, a: Pass, u: Pass, n: string, visited: bool, since: nat)
    requires visited <==> n in env.scan
    requires if visited then Fulfilled(env, a, u, n, FateOf(env, a, n), since) else Untouched(env, a, u, n, since)
    ensures n in RemovedLocally(env, u) <==> FateOf(env, a, n) == Drop
  {
    assert SlotOf(u, n).entry == At(u.entries, n);
  }

  lemma CombineFates(env: Env, a: Pass, u: Pass, f: Pass, n: string, since: nat)
    requires Sound(env, a, u, since) && Sound(env, u, f, since)
    requires if n in env.scan then Fulfilled(env, a, u, n, FateOf(env, a, n), since) else Untouched(env, a, u, n, since)
    requires if n in RemovedLocally(env, u) then Fulfilled(env, u, f, n, Drop, since)
        else Untouched(env, u, f, n, since)
    ensures Fulfilled(env, a, f, n, FateOf(env, a, n), since)
    ensures Sound(env, a, f, since)
  {
    LeavesRemovals(env, a, u, n, n in env.scan, since);
  }
}
