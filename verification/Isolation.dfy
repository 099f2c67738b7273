/** Owners are kept apart: over any run, an owner's rows and tombstones change only by steps
    taken for that owner, whatever ids, listings and responses the clients of others work with. */
module Isolation {
  import opened Basics
  import opened FileNames
  import opened Repo
  import opened FileService
  import opened SyncService
  import opened Reconcile
  import opened ReconcilePass
  import opened SyncTheorems
  import opened FailedDeletes
  import opened Resolve
  import opened SyncRuns
  import opened StepEffects

  /** The owner has the same rows and the same tombstones. */
  ghost predicate SameFor(s: Tables, t: Tables, owner: nat) {
    && (forall r: Row :: r.owner == owner ==> (r in t.files <==> r in s.files))
    && (forall d: Tomb :: d.row.owner == owner ==> (d in t.deletions <==> d in s.deletions))
  }

  /** What a step for another owner keeps. */
  ghost predicate Apart(s: Tables, t: Tables, owner: nat) {
    UniqueIds(t.files) && (forall r :: r in t.files ==> r.id <= t.lastId) && SameFor(s, t, owner)
  }

  lemma BuryApart(s: Tables, t: Tables, owner: nat, other: nat, id: nat)
    requires Apart(s, t, owner) && other != owner
    ensures Apart(s, Bury(t, other, id), owner)
  {
    if FindId(t.files, other, id).Some? {
      WithoutMembers(t.files, id);
    }
  }

  lemma CreateApart(s: Tables, t: Tables, owner: nat, other: nat, filename: string, body: Content)
    requires Apart(s, t, owner) && other != owner
    ensures var c := CreateFile(t, other, filename, body); c.Created? ==> Apart(s, c.tables, owner)
  {
  }

  lemma PutApart(env: Env, s: Tables, p: Pass, owner: nat, n: string)
    requires n in env.scan && Apart(s, p.tables, owner) && env.owner != owner
    ensures Apart(s, PutFile(env, p, n).tables, owner)
  {
    if n in p.folder {
      CreateApart(s, p.tables, owner, env.owner, n, p.folder[n]);
    }
  }

  lemma RoundApart(env: Env, s: Tables, p: Pass, owner: nat, n: string, lost: set<string>)
    requires n in env.scan && Apart(s, p.tables, owner) && env.owner != owner
    ensures Apart(s, UploadNameLosing(env, p, n, lost).tables, owner)
  {
    PutApart(env, s, p, owner, n);
    if n in p.entries {
      PutApart(env, s, LostDelete(p, n), owner, n);
      BuryApart(s, p.tables, owner, env.owner, p.entries[n].remoteId);
      PutApart(env, s, RemoteDelete(env, p, n, p.entries[n].remoteId), owner, n);
    }
  }

  lemma {:induction false} UploadsApart(env: Env, s: Tables, p: Pass, owner: nat, order: seq<string>, lost: set<string>)
    requires Apart(s, p.tables, owner) && env.owner != owner && forall n :: n in order ==> n in env.scan
    ensures Apart(s, UploadAllLosing(env, p, order, lost).tables, owner)
  {
    if order != [] {
      var front := order[..|order| - 1];
      UploadsApart(env, s, p, owner, front, lost);
      RoundApart(env, s, UploadAllLosing(env, p, front, lost), owner, order[|order| - 1], lost);
    }
  }

  lemma {:induction false} RemovalsApart(env: Env, s: Tables, p: Pass, owner: nat, order: seq<string>,
                                         lost: set<string>)
    requires Apart(s, p.tables, owner) && env.owner != owner
    ensures Apart(s, RemoveAllLosing(env, p, order, lost).tables, owner)
  {
    if order != [] {
      var front, n := order[..|order| - 1], order[|order| - 1];
      RemovalsApart(env, s, p, owner, front, lost);
      var q := RemoveAllLosing(env, p, front, lost);
      if n in q.entries {
        BuryApart(s, q.tables, owner, env.owner, q.entries[n].remoteId);
      }
    }
  }

  lemma PassApart(env: Env, c: Client, s: Tables, owner: nat, budget: nat, order: seq<string>, removals: seq<string>,
                  lost: set<string>)
    requires Apart(s, s, owner) && env.owner != owner && forall n :: n in order ==> n in env.scan
    ensures Apart(s, RunPassLosing(env, c, s, budget, order, removals, lost).tables, owner)
  {
    ApplyActionsKeepsTables(env, StartPass(c, s, budget), DiffActions(s, c.owner, c.cursor, ManifestOf(env.scan)));
    UploadsApart(env, s, AfterActions(env, c, s, budget), owner, order, lost);
    RemovalsApart(env, s, AfterUploadsLosing(env, c, s, budget, order, lost), owner, removals, lost);
  }

  lemma ResolvedApart(x: Site, owner: nat, k: Conflict, choice: Choice, budget: nat, desktop: bool)
    requires Apart(x.tables, x.tables, owner) && x.client.owner != owner
    ensures Apart(x.tables, Resolved(x, k, choice, budget, desktop).tables, owner)
  {
    match choice
    case Mine(_) => MineApart(x, owner, k);
    case Theirs =>
    case Both(date) =>
      var trace := KeepBoth(x, k, date, budget, desktop);
      BothOwner(x, k, date, budget, desktop, trace[|trace| - 1]);
      if k.name in x.client.folder {
        CreateApart(x.tables, x.tables, owner, x.client.owner, ConflictCopyName(k.name, date), x.client.folder[k.name]);
      }
  }

  lemma MineApart(x: Site, owner: nat, k: Conflict)
    requires Apart(x.tables, x.tables, owner) && x.client.owner != owner
    ensures Apart(x.tables, Bury(x.tables, x.client.owner, k.remoteId), owner)
    ensures k.name in x.client.folder ==> Apart(x.tables, UploadMine(x, k).tables, owner)
    ensures k.name in x.client.folder ==>
              Apart(x.tables, UploadMine(x.(tables := Bury(x.tables, x.client.owner, k.remoteId)), k).tables, owner)
  {
    var t := Bury(x.tables, x.client.owner, k.remoteId);
    BuryApart(x.tables, x.tables, owner, x.client.owner, k.remoteId);
    if k.name in x.client.folder {
      CreateApart(x.tables, x.tables, owner, x.client.owner, k.name, x.client.folder[k.name]);
      CreateApart(x.tables, t, owner, x.client.owner, k.name, x.client.folder[k.name]);
    }
  }

  /** Whom a step is taken for. */
  function ActsFor(w: World, step: Step): Option<nat> {
    match step
    case Upload(owner, _, _) => Some(owner)
    case Remove(owner, _) => Some(owner)
    case _ =>
      var i := Mover(step);
      if i.Some? && i.value < |w.clients| then Some(w.clients[i.value].owner) else None
  }

  lemma StepApart(w: World, step: Step, owner: nat)
    requires Apart(w.tables, w.tables, owner) && Enabled(w, step) && ActsFor(w, step) != Some(owner)
    ensures Apart(w.tables, Take(w, step).tables, owner)
  {
    match step
    case Upload(other, filename, body) => CreateApart(w.tables, w.tables, owner, other, filename, body);
    case Remove(other, id) => BuryApart(w.tables, w.tables, owner, other, id);
    case Gap(_, _) =>
    case Edit(_, _, _) =>
    case Erased(_, _) =>
    case Switch(_, _) =>
    case Sync(i, unreadable, order, removals, budget, lost, _) =>
      var env := EnvOf(w.clients[i], w.tables, unreadable);
      PassApart(env, w.clients[i], w.tables, owner, budget, order, removals, lost);
    case Resolve(i, k, choice, budget, desktop) =>
      ResolvedApart(Site(w.clients[i], w.tables), owner, k, choice, budget, desktop);
  }

  /** No step of the run is taken for the owner. */
  ghost predicate NeverFor(w: World, steps: seq<Step>, owner: nat)
    requires IsRun(w, steps)
    decreases |steps|
  {
    steps == [] || (ActsFor(w, steps[0]) != Some(owner) && NeverFor(Take(w, steps[0]), steps[1..], owner))
  }

  ghost function EndOf(w: World, steps: seq<Step>): World
    requires IsRun(w, steps)
    decreases |steps|
  {
    if steps == [] then w else EndOf(Take(w, steps[0]), steps[1..])
  }

  /** Over any run that takes no step for an owner, failing deletes and stale ids included, the
      owner's rows and tombstones stay exactly as they were. */
  lemma {:induction false} OwnersApart(w: World, steps: seq<Step>, owner: nat)
    requires UniqueIds(w.tables.files) && forall r :: r in w.tables.files ==> r.id <= w.tables.lastId
    requires IsRun(w, steps) && NeverFor(w, steps, owner)
    ensures SameFor(w.tables, EndOf(w, steps).tables, owner)
    decreases |steps|
  {
    if steps != [] {
      StepApart(w, steps[0], owner);
      OwnersApart(Take(w, steps[0]), steps[1..], owner);
    }
  }
}
