/** The desktop sync object: folder, entries, cursor and conflicts are fields that a pass and a
    folder change update in place. */
module DesktopSync {
  import opened Basics
  import opened FileNames
  import opened Repo
  import opened FileService
  import opened SyncService
  import opened Reconcile
  import opened ReconcilePass
  import opened SyncTheorems
  import opened SyncRuns
  import opened Resolve

  function ManifestSeq(scan: map<string, Content>, order: seq<string>): seq<ManifestEntry>
    requires forall n :: n in order ==> n in scan
  {
    if order == [] then []
    else
      var n := order[|order| - 1];
      ManifestSeq(scan, order[..|order| - 1]) + [ManifestEntry(n, Digest(scan[n]))]
  }

  lemma {:induction false} ManifestKeys(scan: map<string, Content>, order: seq<string>)
    requires forall n :: n in order ==> n in scan
    ensures HashByName(ManifestSeq(scan, order)).Keys == set n | n in order
    ensures forall n :: n in order ==> HashByName(ManifestSeq(scan, order))[n] == Digest(scan[n])
  {
    if order != [] {
      var front, last := order[..|order| - 1], order[|order| - 1];
      ManifestKeys(scan, front);
      var m := ManifestSeq(scan, order);
      assert m[..|m| - 1] == ManifestSeq(scan, front);
      assert forall n :: n in order <==> n in front || n == last;
    }
  }

  /** The manifest the client sends means the scan, in whatever order it lists it. */
  lemma ManifestMeansScan(scan: map<string, Content>, order: seq<string>)
    requires Visits(order, scan.Keys)
    ensures HashByName(ManifestSeq(scan, order)) == ManifestOf(scan)
  {
    ManifestKeys(scan, order);
    assert HashByName(ManifestSeq(scan, order)).Keys == ManifestOf(scan).Keys;
  }

  /** On the way to visiting all names, those of `todo` are left. */
  ghost predicate Visiting(order: seq<string>, todo: set<string>, names: set<string>) {
    && (forall n :: n in names <==> n in todo || n in order)
    && (forall n :: n in order ==> n !in todo) && Distinct(order)
  }

  lemma VisitOne(order: seq<string>, todo: set<string>, names: set<string>, n: string)
    requires Visiting(order, todo, names) && n in todo
    ensures Visiting(order + [n], todo - {n}, names)
  {
  }

  class SyncClient {
    const owner: nat
    var folderPath: string
    var folder: map<string, Content>
    var entries: map<string, Entry>
    var lastSyncedVersion: nat
    var conflicts: seq<Conflict>
    var isSyncing: bool

    function State(): Client
      reads this
    {
      Client(owner, folder, entries, lastSyncedVersion, conflicts)
    }

    constructor (owner: nat, folderPath: string, folder: map<string, Content>)
      ensures State() == Client(owner, folder, map[], 0, []) && this.folderPath == folderPath && !isSyncing
    {
      this.owner, this.folderPath, this.folder := owner, folderPath, folder;
      entries, lastSyncedVersion, conflicts, isSyncing := map[], 0, [], false;
    }

    /** Choosing another folder resets the bookkeeping; choosing the same one keeps it.
        `contents` is what the folder at `path` holds. */
    method Select(path: string, contents: map<string, Content>)
      requires path == folderPath ==> contents == folder
      modifies this
      ensures State() == if path == old(folderPath) then old(State()) else SelectFolder(old(State()), contents)
      ensures folderPath == path && isSyncing == old(isSyncing)
    {
      if folderPath != path {
        lastSyncedVersion, entries, conflicts := 0, map[], [];
      }
      folderPath, folder := path, contents;
    }

    /** The pass as the specification sees it in the middle of the work. */
    ghost function Snapshot(repo: FileRepo, conflicted: set<string>, deleted: set<string>, downloaded: set<string>,
                            removals: seq<Removal>, budget: nat, aborted: bool): Pass
      reads this, repo
    {
      Pass(folder, entries, conflicts, repo.State(), conflicted, deleted, downloaded, removals, budget, aborted)
    }

    method ApplyServerActions(repo: FileRepo, env: Env, actions: seq<Action>, budget: nat)
      returns (conflicted: set<string>, deleted: set<string>, downloaded: set<string>, left: nat, ok: bool)
      requires env.owner == owner
      modifies this`folder, this`entries, this`conflicts
      ensures Snapshot(repo, conflicted, deleted, downloaded, [], left, !ok)
              == ApplyActions(env, old(StartPass(State(), repo.State(), budget)), actions)
    {
      ghost var p := StartPass(State(), repo.State(), budget);
      conflicted, deleted, downloaded, left, ok := ConflictNames(conflicts), {}, {}, budget, true;
      for i := 0 to |actions|
        invariant Snapshot(repo, conflicted, deleted, downloaded, [], left, !ok) == ApplyActions(env, p, actions[..i])
        invariant ok
      {
        assert actions[..i + 1][..i] == actions[..i];
        match actions[i] {
          case Download(name, _) =>
            if name in env.remote {
              var found := FindId(repo.files, owner, env.remote[name].id);
              if left == 0 || found.None? {
                ok := false;
                AbortedActions(env, p, actions, i + 1);
                return;
              }
              folder := folder[name := found.value.body];
              entries := entries[name := EntryFor(found.value.body, env.remote[name].id)];
              downloaded := downloaded + {name};
              left := left - 1;
            }
          case DeleteLocal(name, _) =>
            folder := folder - {name};
            entries := entries - {name};
            deleted := deleted + {name};
          case Clash(name, _, details) =>
            if details.Some? && name in env.scan {
              if name in env.remote || name in entries {
                var id := if name in env.remote then env.remote[name].id else entries[name].remoteId;
                conflicts := Upsert(conflicts, Conflict(name, id, |env.scan[name]|, details.value));
                conflicted := conflicted + {name};
              }
            }
        }
      }
      assert actions[..|actions|] == actions;
    }

    /** Upload one file and record it. */
    method PutOne(repo: FileRepo, env: Env, name: string, ghost conflicted: set<string>, ghost deleted: set<string>,
                  ghost downloaded: set<string>, ghost removals: seq<Removal>, budget: nat)
      returns (left: nat, ok: bool)
      requires Valid(repo.State()) && env.owner == owner && name in env.scan
      modifies this`entries, repo
      ensures Valid(repo.State())
      ensures Snapshot(repo, conflicted, deleted, downloaded, removals, left, !ok)
              == PutFile(env, old(Snapshot(repo, conflicted, deleted, downloaded, removals, budget, false)), name)
    {
      left, ok := budget, false;
      if name !in folder || left == 0 {
        return;
      }
      var created := CreateRow(repo, owner, name, folder[name]);
      if created.None? {
        return;
      }
      left, ok := left - 1, true;
      entries := entries[name := EntryFor(env.scan[name], created.value.id)];
    }

    /** The upload loop's body, for one scanned name. */
    method UploadOne(repo: FileRepo, env: Env, name: string, conflicted: set<string>, deleted: set<string>,
                     ghost downloaded: set<string>, ghost before: seq<Removal>, budget: nat)
      returns (ghost removals: seq<Removal>, left: nat, ok: bool)
      requires Valid(repo.State()) && env.owner == owner && name in env.scan
      modifies this`entries, repo
      ensures Valid(repo.State())
      ensures Snapshot(repo, conflicted, deleted, downloaded, removals, left, !ok)
              == UploadName(env, old(Snapshot(repo, conflicted, deleted, downloaded, before, budget, false)), name)
    {
      removals, left, ok := before, budget, true;
      if name in conflicted || name in deleted {
        return;
      }
      if name in entries {
        var known := entries[name];
        if known.size == |env.scan[name]| && known.hash == Digest(env.scan[name]) {
          return;
        }
        var _ := repo.Delete(owner, known.remoteId);
        removals := removals + [Removal(name, known.remoteId)];
      } else if name in env.remote {
        return;
      }
      left, ok := PutOne(repo, env, name, conflicted, deleted, downloaded, removals, left);
    }

    method UploadPass(repo: FileRepo, env: Env, order: seq<string>,
                      conflicted: set<string>, deleted: set<string>, ghost downloaded: set<string>, budget: nat)
      returns (ghost removals: seq<Removal>, left: nat, ok: bool)
      requires Valid(repo.State()) && env.owner == owner && forall n :: n in order ==> n in env.scan
      modifies this`entries, repo
      ensures Valid(repo.State())
      ensures Snapshot(repo, conflicted, deleted, downloaded, removals, left, !ok)
              == UploadAll(env, old(Snapshot(repo, conflicted, deleted, downloaded, [], budget, false)), order)
    {
      ghost var p := Snapshot(repo, conflicted, deleted, downloaded, [], budget, false);
      removals, left, ok := [], budget, true;
      for i := 0 to |order|
        invariant ok && Valid(repo.State())
        invariant Snapshot(repo, conflicted, deleted, downloaded, removals, left, false)
            == UploadAll(env, p, order[..i])
      {
        assert order[..i + 1][..i] == order[..i];
        removals, left, ok := UploadOne(repo, env, order[i], conflicted, deleted, downloaded, removals, left);
        if !ok {
          AbortedUploads(env, p, order, i + 1);
          return;
        }
      }
      assert order[..|order|] == order;
    }

    /** Remote delete of one name, best effort. */
    method RemoveOne(repo: FileRepo, env: Env, name: string, ghost conflicted: set<string>, ghost deleted: set<string>,
                     ghost downloaded: set<string>, ghost before: seq<Removal>, ghost budget: nat)
      returns (ghost removals: seq<Removal>)
      requires Valid(repo.State()) && env.owner == owner && name in entries
      modifies this`entries, repo
      ensures Valid(repo.State()) && entries == old(entries) - {name}
      ensures Snapshot(repo, conflicted, deleted, downloaded, removals, budget, false)
              == RemoveName(env, old(Snapshot(repo, conflicted, deleted, downloaded, before, budget, false)), name)
    {
      var known := entries[name];
      var _ := repo.Delete(owner, known.remoteId);
      removals := before + [Removal(name, known.remoteId)];
      entries := entries - {name};
    }

    /** Dictionary keys come in no particular order; `order` reports the one that was used. */
    method RemovePass(repo: FileRepo, env: Env, conflicted: set<string>, deleted: set<string>, downloaded: set<string>,
                      ghost before: seq<Removal>, budget: nat)
      returns (order: seq<string>, ghost removals: seq<Removal>)
      requires Valid(repo.State()) && env.owner == owner
      modifies this`entries, repo
      ensures Valid(repo.State())
      ensures var u := old(Snapshot(repo, conflicted, deleted, downloaded, before, budget, false));
              && Visits(order, RemovedLocally(env, u))
              && Snapshot(repo, conflicted, deleted, downloaded, removals, budget, false) == RemoveAll(env, u, order)
    {
      ghost var u := Snapshot(repo, conflicted, deleted, downloaded, before, budget, false);
      var todo := set n | n in entries && n !in env.scan && n !in env.unreadable && n !in conflicted
          && n !in downloaded;
      order, removals := [], before;
      while todo != {}
        invariant Valid(repo.State())
        invariant Visiting(order, todo, RemovedLocally(env, u)) && todo <= entries.Keys
        invariant Snapshot(repo, conflicted, deleted, downloaded, removals, budget, false) == RemoveAll(env, u, order)
        decreases todo
      {
        var name :| name in todo;
        VisitOne(order, todo, RemovedLocally(env, u), name);
        todo := todo - {name};
        assert (order + [name])[..|order|] == order;
        order := order + [name];
        removals := RemoveOne(repo, env, name, conflicted, deleted, downloaded, removals, budget);
      }
    }

    /** The second half of a pass: upload, then delete remotely. */
    method PushChanges(repo: FileRepo, env: Env, order: seq<string>, conflicted: set<string>, deleted: set<string>,
                       downloaded: set<string>, budget: nat)
      returns (removed: seq<string>, ghost removals: seq<Removal>, left: nat, ok: bool)
      requires Valid(repo.State()) && env.owner == owner && forall n :: n in order ==> n in env.scan
      modifies this`entries, repo
      ensures Valid(repo.State())
      ensures var a := old(Snapshot(repo, conflicted, deleted, downloaded, [], budget, false));
              var u := UploadAll(env, a, order);
              var q := Snapshot(repo, conflicted, deleted, downloaded, removals, left, !ok);
              if ok then
                !u.aborted && Visits(removed, RemovedLocally(env, u)) && q == RemoveAll(env, u, removed)
              else removed == [] && u.aborted && q == u
    {
      removed := [];
      removals, left, ok := UploadPass(repo, env, order, conflicted, deleted, downloaded, budget);
      if ok {
        removed, removals := RemovePass(repo, env, conflicted, deleted, downloaded, removals, left);
      }
    }

    /** The work of a pass, between setting the flag and clearing it. */
    method ReconcileNow(repo: FileRepo, unreadable: set<string>, order: seq<string>, budget: nat)
      returns (removed: seq<string>, ok: bool)
      requires Valid(repo.State()) && Visits(order, Scan(folder, unreadable).Keys)
      modifies this`folder, this`entries, this`conflicts, this`lastSyncedVersion, repo
      ensures Valid(repo.State())
      ensures var c, s := old(State()), old(repo.State());
              var env := EnvOf(c, s, unreadable);
              && State() == DesktopAfter(env, c, s, budget, order, removed)
              && repo.State() == RunPass(env, c, s, budget, order, removed).tables
              && (ok <==> !RunPass(env, c, s, budget, order, removed).aborted)
              && (ok ==> Orders(env, c, s, budget, order, removed))
    {
      removed := [];
      ghost var c, s := State(), repo.State();
      var scan := Scan(folder, unreadable);
      var env := Env(owner, scan, unreadable, LiveByName(repo.files, owner));
      ManifestMeansScan(scan, order);
      var actions, newVersion := Diff(repo, owner, lastSyncedVersion, ManifestSeq(scan, order));
      var conflicted, deleted, downloaded, left, applied := ApplyServerActions(repo, env, actions, budget);
      if !applied {
        AbortedStays(env, AfterActions(env, c, s, budget), order, removed);
        return removed, false;
      }
      lastSyncedVersion := newVersion;
      ghost var removals;
      removed, removals, left, ok := PushChanges(repo, env, order, conflicted, deleted, downloaded, left);
      if !ok {
        AbortedStays(env, AfterUploads(env, c, s, budget, order), [], removed);
      }
    }

    /** One sync pass. A call while another is running does nothing. */
    method Reconcile(repo: FileRepo, unreadable: set<string>, order: seq<string>, budget: nat)
      returns (removed: seq<string>, ok: bool)
      requires Valid(repo.State()) && Visits(order, Scan(folder, unreadable).Keys)
      modifies this, repo
      ensures Valid(repo.State()) && folderPath == old(folderPath)
      ensures old(isSyncing) ==> State() == old(State()) && repo.State() == old(repo.State()) && isSyncing && !ok
      ensures !old(isSyncing) ==>
                var c, s := old(State()), old(repo.State());
                var env := EnvOf(c, s, unreadable);
                && !isSyncing
                && State() == DesktopAfter(env, c, s, budget, order, removed)
                && repo.State() == RunPass(env, c, s, budget, order, removed).tables
                && (ok <==> !RunPass(env, c, s, budget, order, removed).aborted)
                && (ok ==> Orders(env, c, s, budget, order, removed))
    {
      removed, ok := [], false;
      if isSyncing {
        return;
      }
      isSyncing := true;
      removed, ok := ReconcileNow(repo, unreadable, order, budget);
      isSyncing := false;
    }

    // Conflict resolution. `budget` is the number of throwing API calls that get through.

    ghost function Now(repo: FileRepo): Site
      reads this, repo
    {
      Site(State(), repo.State())
    }

    method ForgetConflict(name: string)
      modifies this`conflicts
      ensures conflicts == WithoutConflict(old(conflicts), name)
    {
      ghost var were := conflicts;
      var kept, rest := [], conflicts;
      while rest != []
        invariant WithoutConflict(were, name) == kept + WithoutConflict(rest, name)
        invariant conflicts == were
        decreases |rest|
      {
        if rest[0].name != name {
          kept := kept + [rest[0]];
        }
        rest := rest[1..];
      }
      conflicts := kept;
    }

    method UploadKept(repo: FileRepo, k: Conflict)
      requires Valid(repo.State()) && k.name in folder
      modifies this`entries, this`conflicts, repo
      ensures Valid(repo.State())
      ensures Now(repo) == old(UploadMine(Now(repo), k))
    {
      var created := CreateRow(repo, owner, k.name, folder[k.name]);
      if created.Some? {
        entries := entries[k.name := EntryFor(folder[k.name], created.value.id)];
        ForgetConflict(k.name);
      }
    }

    method ResolveKeepLocal(repo: FileRepo, k: Conflict, budget: nat)
      requires Valid(repo.State())
      modifies this`entries, this`conflicts, repo
      ensures Valid(repo.State())
      ensures Now(repo) == old(KeepLocal(Now(repo), k, budget, true))
    {
      var _ := repo.Delete(owner, k.remoteId);
      if k.name in folder && budget > 0 {
        UploadKept(repo, k);
      }
    }

    method ResolveKeepRemote(repo: FileRepo, k: Conflict, budget: nat)
      modifies this`folder, this`entries, this`conflicts
      ensures Now(repo) == old(KeepRemote(Now(repo), k, budget))
    {
      var found := FindId(repo.files, owner, k.remoteId);
      if found.None? || budget == 0 {
        return;
      }
      folder := folder[k.name := found.value.body];
      entries := entries[k.name := EntryFor(found.value.body, k.remoteId)];
      ForgetConflict(k.name);
    }

    /** Keep both, once the copy is on the server as `row`. */
    method TakeRemote(repo: FileRepo, k: Conflict, copy: string, edit: Content, row: Row, calls: nat)
      modifies this`folder, this`entries, this`conflicts
      ensures var rest := old(AfterUpload(Now(repo), k, copy, edit, row, calls, true)); Now(repo) == rest[|rest| - 1]
    {
      ghost var rest := AfterUpload(Now(repo), k, copy, edit, row, calls, true);
      entries := entries[copy := EntryFor(edit, row.id)];
      assert Now(repo) == rest[0];
      var found := FindId(repo.files, owner, k.remoteId);
      if found.None? || calls == 0 {
        folder := folder - {copy};
        return;
      }
      folder := folder[k.name := found.value.body];
      assert Now(repo) == rest[1];
      entries := entries[k.name := EntryFor(found.value.body, k.remoteId)];
      ForgetConflict(k.name);
    }

    /** Goes through the states of KeepBoth one by one and ends in its last. */
    method ResolveKeepBoth(repo: FileRepo, k: Conflict, date: string, budget: nat)
      requires Valid(repo.State())
      modifies this`folder, this`entries, this`conflicts, repo
      ensures Valid(repo.State())
      ensures var trace := old(KeepBoth(Now(repo), k, date, budget, true)); Now(repo) == trace[|trace| - 1]
    {
      ghost var x := Now(repo);
      var copy := ConflictCopyName(k.name, date);
      if k.name !in folder || copy in folder {
        folder := folder - {copy};
        return;
      }
      var edit := folder[k.name];
      folder := folder[copy := edit];
      ghost var copied := Now(repo);
      assert copied == WriteFile(x, copy, edit);
      if budget == 0 {
        folder := folder - {copy};
        assert Now(repo) == DropCopy(copied, copy);
        return;
      }
      var created := CreateRow(repo, owner, copy, edit);
      if created.None? {
        folder := folder - {copy};
        assert Now(repo) == DropCopy(copied, copy);
        return;
      }
      TraceEnds(x, k, date, budget, true);
      assert Now(repo) == copied.(tables := CreateFile(x.tables, owner, copy, edit).tables);
      TakeRemote(repo, k, copy, edit, created.value, budget - 1);
    }
  }

  lemma {:induction false} AbortedActions(env: Env, p: Pass, actions: seq<Action>, i: nat)
    requires i <= |actions| && ApplyActions(env, p, actions[..i]).aborted
    ensures ApplyActions(env, p, actions) == ApplyActions(env, p, actions[..i])
    decreases |actions| - i
  {
    if i == |actions| {
      assert actions[..i] == actions;
    } else {
      assert actions[..i + 1][..i] == actions[..i];
      AbortedActions(env, p, actions, i + 1);
    }
  }

  lemma {:induction false} AbortedUploads(env: Env, p: Pass, order: seq<string>, i: nat)
    requires forall n :: n in order ==> n in env.scan
    requires i <= |order| && UploadAll(env, p, order[..i]).aborted
    ensures UploadAll(env, p, order) == UploadAll(env, p, order[..i])
    decreases |order| - i
  {
    if i == |order| {
      assert order[..i] == order;
    } else {
      assert order[..i + 1][..i] == order[..i];
      AbortedUploads(env, p, order, i + 1);
    }
  }
}
