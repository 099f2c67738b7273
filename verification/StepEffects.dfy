/** Effects that a completed pass over a fitting listing does not show: rounds whose delete fails,
    files that change while a pass runs, responses that do not fit the listing, and what every
    step of a run leaves alone. */
module StepEffects {
  import opened Basics
  import opened FileNames
  import opened Repo
  import opened FileService
  import opened SyncService
  import opened Reconcile
  import opened ReconcileTable
  import opened SyncTheorems
  import opened FailedDeletes
  import opened Resolve
  import opened ResolveByName
  import opened SyncRuns

  // ---- Rounds whose delete fails ----------------------------------------------------------

  /** All 1001 names that an upload tries are taken. */
  ghost predicate AllTaken(files: seq<Row>, owner: nat, base: string) {
    forall k: nat :: k <= 1000 ==> NumberTaken(files, owner, base, k)
  }

  /** One more row, with these bytes, under the least free number of the name, and an entry of
      the name for it that has the scanned file's size and hash. */
  ghost predicate Stored(owner: nat, p: Pass, q: Pass, n: string, sent: Content, scanned: Content) {
    && |q.tables.files| == |p.tables.files| + 1 && q.tables.files[..|p.tables.files|] == p.tables.files
    && q.tables.deletions == p.tables.deletions
    && (var row := q.tables.files[|p.tables.files|];
        && row.owner == owner && row.body == sent && row.hash == Digest(sent)
        && row.id > p.tables.lastId && row.version > p.tables.lastVersion
        && LeastFree(p.tables.files, owner, n, row.name)
        && q.entries == p.entries[n := Entry(row.id, |scanned|, Digest(scanned))])
  }

  lemma PutAborts(env: Env, p: Pass, n: string)
    requires !p.aborted && n in env.scan && PlainName(n)
    ensures PutFile(env, p, n).aborted
            <==> n !in p.folder || p.budget == 0 || AllTaken(p.tables.files, env.owner, n)
    ensures PutFile(env, p, n).aborted ==> PutFile(env, p, n) == p.(aborted := true)
  {
    BasePlain(n);
    if n in p.folder {
      NamesExhaustedIff(p.tables, env.owner, n, p.folder[n]);
    }
  }

  lemma PutStores(env: Env, p: Pass, n: string)
    requires !p.aborted && Valid(p.tables) && n in env.scan && PlainName(n) && !PutFile(env, p, n).aborted
    ensures n in p.folder && Stored(env.owner, p, PutFile(env, p, n), n, p.folder[n], env.scan[n])
  {
    var c, q := CreateFile(p.tables, env.owner, n, p.folder[n]), PutFile(env, p, n);
    BasePlain(n);
    CreatePicksLeastFree(p.tables, env.owner, n, p.folder[n]);
    assert q.tables.files == p.tables.files + [c.row];
  }

  lemma PutTouches(env: Env, p: Pass, n: string)
    requires n in env.scan && !PutFile(env, p, n).aborted
    ensures var q := PutFile(env, p, n);
            p.budget > 0 && q == p.(tables := q.tables, entries := q.entries, budget := p.budget - 1)
  {
  }

  /** An upload reads the file as it is now, and remembers it as the scan saw it. It fails when
      the file is gone, the call is not answered or no name is free, and then changes nothing. */
  lemma UploadReadsNow(env: Env, p: Pass, n: string)
    requires !p.aborted && Valid(p.tables) && n in env.scan && PlainName(n)
    ensures var q := PutFile(env, p, n);
            && (q.aborted <==> n !in p.folder || p.budget == 0 || AllTaken(p.tables.files, env.owner, n))
            && (if q.aborted then q == p.(aborted := true)
                else
                  && Stored(env.owner, p, q, n, p.folder[n], env.scan[n])
                  && q == p.(tables := q.tables, entries := q.entries, budget := p.budget - 1))
  {
    PutAborts(env, p, n);
    if !PutFile(env, p, n).aborted {
      PutStores(env, p, n);
      PutTouches(env, p, n);
    }
  }

  /** When the delete before it fails, the upload leaves the old row and stores the file beside
      it, under a numbered name that the client takes for the name itself. */
  lemma LostReplacement(env: Env, p: Pass, n: string, lost: set<string>)
    requires Settled(env, p) && Uploadable(env, p, n) && n in lost && Replaces(env, p, n)
    ensures var q := UploadNameLosing(env, p, n, lost);
            && (q.aborted <==> p.budget == 0 || AllTaken(p.tables.files, env.owner, n))
            && q.folder == p.folder && q.conflicts == p.conflicts
            && (if q.aborted then q.tables == p.tables && q.entries == p.entries
                else
                  && Stored(env.owner, p, q, n, env.scan[n], env.scan[n])
                  && q.tables.files[|p.tables.files|].name != n)
  {
    UploadReadsNow(env, LostDelete(p, n), n);
    assert EntryLive(p.tables.files, env.owner, n, p.entries[n]);
    assert NumberTaken(p.tables.files, env.owner, n, 0);
  }

  /** When the delete of a locally removed file fails, the client forgets it all the same. */
  lemma LostRemoval(env: Env, p: Pass, n: string, lost: set<string>)
    requires !p.aborted && n in p.entries && n in lost
    ensures var q := RemoveNameLosing(env, p, n, lost);
            && q.tables == p.tables && q.folder == p.folder && q.conflicts == p.conflicts && !q.aborted
            && q.removals == p.removals + [Removal(n, p.entries[n].remoteId)]
            && n !in q.entries && forall m :: m != n ==> At(q.entries, m) == At(p.entries, m)
  {
  }

  /** One more row with the file's bytes under the least free number of its name, and an entry
      of the name for it. */
  ghost predicate MineBeside(x: Site, y: Site, k: Conflict, body: Content) {
    && |y.tables.files| == |x.tables.files| + 1 && y.tables.files[..|x.tables.files|] == x.tables.files
    && (var row := y.tables.files[|x.tables.files|];
        && row.owner == x.client.owner && row.body == body
        && LeastFree(x.tables.files, x.client.owner, k.name, row.name)
        && At(y.client.entries, k.name) == Some(Entry(row.id, |body|, Digest(body))))
  }

  lemma UploadMineStores(x: Site, k: Conflict)
    requires PlainName(k.name) && Valid(x.tables) && k.name in x.client.folder
    ensures if AllTaken(x.tables.files, x.client.owner, k.name) then UploadMine(x, k) == x
            else MineBeside(x, UploadMine(x, k), k, x.client.folder[k.name])
    ensures !AllTaken(x.tables.files, x.client.owner, k.name) ==>
              ConflictOf(UploadMine(x, k).client.conflicts, k.name) == None
  {
    var body := x.client.folder[k.name];
    BasePlain(k.name);
    WithoutConflictLookup(x.client.conflicts, k.name, k.name);
    NamesExhaustedIff(x.tables, x.client.owner, k.name, body);
    if CreateFile(x.tables, x.client.owner, k.name, body).Created? {
      CreatePicksLeastFree(x.tables, x.client.owner, k.name, body);
    }
  }

  lemma UploadMineOthers(x: Site, k: Conflict, m: string)
    requires k.name in x.client.folder && m != k.name
    ensures var y := UploadMine(x, k);
            && SameSession(x.client, y.client) && y.client.folder == x.client.folder
            && SameOnClient(x.client, y.client, m)
  {
    WithoutConflictLookup(x.client.conflicts, k.name, m);
  }

  /** Keep-local whose delete fails stores the file beside the row that it meant to replace. */
  lemma LostKeepLocal(x: Site, k: Conflict, budget: nat, m: string)
    requires PlainName(k.name) && Valid(x.tables) && m != k.name
    ensures var y, c := KeepLocalLosing(x, k, budget), x.client;
            && SameSession(c, y.client) && y.client.folder == c.folder && SameOnClient(c, y.client, m)
            && (if k.name !in c.folder || budget == 0 || AllTaken(x.tables.files, c.owner, k.name) then y == x
                else MineBeside(x, y, k, c.folder[k.name]) && ConflictOf(y.client.conflicts, k.name) == None)
  {
    if k.name in x.client.folder {
      UploadMineStores(x, k);
      UploadMineOthers(x, k, m);
    }
  }

  // ---- Responses that do not fit the listing ----------------------------------------------

  /** A download of a listed name; others are passed over. */
  predicate Fetches(env: Env, a: Action) {
    a.Download? && a.name in env.remote
  }

  function FetchesBefore(env: Env, actions: seq<Action>, k: nat): set<nat>
    requires k <= |actions|
  {
    set j: nat | j < k && Fetches(env, actions[j])
  }

  /** No call is left for the download, or the row it asks for is gone. */
  ghost predicate Fails(env: Env, p: Pass, actions: seq<Action>, k: nat)
    requires k < |actions|
  {
    && Fetches(env, actions[k])
    && (|FetchesBefore(env, actions, k)| >= p.budget
        || forall r :: r in p.tables.files && r.id == env.remote[actions[k].name].id ==> r.owner != env.owner)
  }

  lemma FetchesGrow(env: Env, actions: seq<Action>, k: nat)
    requires k < |actions|
    ensures |FetchesBefore(env, actions, k + 1)|
            == |FetchesBefore(env, actions, k)| + if Fetches(env, actions[k]) then 1 else 0
  {
    assert FetchesBefore(env, actions, k + 1)
        == FetchesBefore(env, actions, k) + if Fetches(env, actions[k]) then {k} else {};
  }

  lemma FetchesOfFront(env: Env, actions: seq<Action>, k: nat)
    requires actions != [] && k < |actions|
    ensures FetchesBefore(env, actions[..|actions| - 1], k) == FetchesBefore(env, actions, k)
  {
  }

  lemma FailsInFront(env: Env, p: Pass, actions: seq<Action>, k: nat)
    requires actions != [] && k < |actions| - 1
    ensures Fails(env, p, actions[..|actions| - 1], k) <==> Fails(env, p, actions, k)
  {
    FetchesOfFront(env, actions, k);
  }

  /** Whatever the response holds, the action loop gets through exactly when every download of a
      listed name finds its row and an answered call. */
  lemma {:induction false} ActionsAbortIff(env: Env, p: Pass, actions: seq<Action>)
    requires !p.aborted
    ensures var q := ApplyActions(env, p, actions);
            && (q.aborted <==> exists k :: 0 <= k < |actions| && Fails(env, p, actions, k))
            && (!q.aborted ==> q.budget == p.budget - |FetchesBefore(env, actions, |actions|)|)
  {
    if actions == [] {
      assert FetchesBefore(env, actions, 0) == {};
    } else {
      var front, last := actions[..|actions| - 1], |actions| - 1;
      ActionsAbortIff(env, p, front);
      ApplyActionsKeepsTables(env, p, front);
      FetchesGrow(env, actions, last);
      FetchesOfFront(env, actions, last);
      forall k | 0 <= k < last
        ensures Fails(env, p, front, k) <==> Fails(env, p, actions, k)
      {
        FailsInFront(env, p, actions, k);
      }
      if ApplyActions(env, p, front).aborted {
        var k :| 0 <= k < |front| && Fails(env, p, front, k);
        assert Fails(env, p, actions, k);
      } else {
        LastAction(env, p, actions);
      }
    }
  }

  lemma LastAction(env: Env, p: Pass, actions: seq<Action>)
    requires actions != []
    requires var f := ApplyActions(env, p, actions[..|actions| - 1]);
             && !f.aborted && f.tables == p.tables
             && f.budget == p.budget - |FetchesBefore(env, actions, |actions| - 1)|
    ensures var f, q := ApplyActions(env, p, actions[..|actions| - 1]), ApplyActions(env, p, actions);
            && (q.aborted <==> Fails(env, p, actions, |actions| - 1))
            && (!q.aborted ==> q.budget == f.budget - if Fetches(env, actions[|actions| - 1]) then 1 else 0)
  {
  }

  // ---- The steps of a run -----------------------------------------------------------------

  /** The client a step is taken by, if any. */
  function Mover(step: Step): Option<nat> {
    match step
    case Edit(i, _, _) => Some(i)
    case Erased(i, _) => Some(i)
    case Switch(i, _) => Some(i)
    case Sync(i, _, _, _, _, _, _) => Some(i)
    case Resolve(i, _, _, _, _) => Some(i)
    case Upload(_, _, _) => None
    case Remove(_, _) => None
    case Gap(_, _) => None
  }

  /** What is on a disk changes only there, what is on the server only by calls, and nobody
      changes another client. */
  lemma StepDoes(w: World, step: Step, j: nat)
    requires Enabled(w, step) && j < |w.clients|
    ensures var v, c := Take(w, step), w.clients[j];
            && |v.clients| == |w.clients| && v.clients[j].owner == c.owner
            && (Mover(step) != Some(j) ==> v.clients[j] == c)
            && (step.Edit? || step.Erased? || step.Switch? ==> v.tables == w.tables)
            && (step.Edit? && step.client == j ==>
                  v.clients[j]
                  == Client(c.owner, c.folder[step.name := step.content], c.entries, c.cursor, c.conflicts))
            && (step.Erased? && step.client == j ==>
                  v.clients[j] == Client(c.owner, c.folder - {step.name}, c.entries, c.cursor, c.conflicts))
            && (step.Switch? && step.client == j ==> v.clients[j] == Client(c.owner, step.folder, map[], 0, []))
            && (step.Gap? ==>
                  v.tables == w.tables.(lastId := w.tables.lastId + step.ids,
                                        lastVersion := w.tables.lastVersion + step.versions))
  {
    OwnerKept(w, step, j);
  }

  /** The steps that call the server are what the calls do. */
  lemma StepCalls(w: World, step: Step)
    requires Enabled(w, step) && UniqueIds(w.tables.files)
    ensures var v := Take(w, step);
            match step
            case Upload(owner, filename, body) =>
              var c := CreateFile(w.tables, owner, filename, body);
              v.tables == (if c.Created? then c.tables else w.tables)
            case Remove(owner, id) =>
              forall r :: r in v.tables.files <==> r in w.tables.files && !(r.owner == owner && r.id == id)
            case Resolve(i, k, choice, budget, desktop) =>
              var x := Site(w.clients[i], w.tables);
              Site(v.clients[i], v.tables)
              == (match choice
                  case Mine(lost) => if lost then KeepLocalLosing(x, k, budget) else KeepLocal(x, k, budget, desktop)
                  case Theirs => KeepRemote(x, k, budget)
                  case Both(date) =>
                    var trace := KeepBoth(x, k, date, budget, desktop);
                    trace[|trace| - 1])
            case Sync(i, unreadable, order, removals, budget, lost, desktop) =>
              var c := w.clients[i];
              var env := Env(c.owner, Scan(c.folder, unreadable), unreadable, LiveByName(w.tables.files, c.owner));
              lost == {} ==>
                && v.tables == RunPass(env, c, w.tables, budget, order, removals).tables
                && v.clients[i]
                   == (if desktop then DesktopAfter(env, c, w.tables, budget, order, removals)
                       else WebAfter(env, c, w.tables, budget, order, removals))
            case _ => true
  {
    match step
    case Remove(owner, id) =>
      forall r
        ensures r in Bury(w.tables, owner, id).files <==> r in w.tables.files && !(r.owner == owner && r.id == id)
      {
        BuriedRows(w.tables, owner, id, r);
      }
    case Sync(i, unreadable, order, removals, budget, lost, _) =>
      if lost == {} {
        LosingNothing(EnvOf(w.clients[i], w.tables, unreadable), w.clients[i], w.tables, budget, order, removals);
      }
    case _ =>
  }

  lemma OwnerKept(w: World, step: Step, j: nat)
    requires Enabled(w, step) && j < |w.clients|
    ensures Take(w, step).clients[j].owner == w.clients[j].owner
  {
    if step.Resolve? {
      ResolvedOwner(Site(w.clients[step.client], w.tables), step.conflict, step.choice, step.budget, step.desktop);
    }
  }

  lemma ResolvedOwner(x: Site, k: Conflict, choice: Choice, budget: nat, desktop: bool)
    ensures Resolved(x, k, choice, budget, desktop).client.owner == x.client.owner
  {
    if choice.Both? {
      var trace := KeepBoth(x, k, choice.date, budget, desktop);
      BothOwner(x, k, choice.date, budget, desktop, trace[|trace| - 1]);
    }
  }

  lemma BothOwner(x: Site, k: Conflict, date: string, budget: nat, desktop: bool, y: Site)
    requires y in KeepBoth(x, k, date, budget, desktop)
    ensures y.client.owner == x.client.owner
    ensures || y.tables == x.tables
            || (&& k.name in x.client.folder
                && (var c := CreateFile(x.tables, x.client.owner, ConflictCopyName(k.name, date),
                                        x.client.folder[k.name]);
                    c.Created? && y.tables == c.tables))
  {
    var early := TraceEarly(x, k, date, budget, desktop, y);
    if !early {
      var copy, edit := ConflictCopyName(k.name, date), x.client.folder[k.name];
      var c := CreateFile(x.tables, x.client.owner, copy, edit);
      AfterUploadTables(WriteFile(x, copy, edit).(tables := c.tables), k, copy, edit, c.row, budget - 1, desktop);
    }
  }
}
