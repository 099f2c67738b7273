/** Every remote delete of a pass is justified, whatever the server answered; and switching to
    another folder never deletes a hashed row. */
module SyncRemovals {
  import opened Basics
  import opened Repo
  import opened SyncService
  import opened Reconcile
  import opened ReconcileTable
  import opened ReconcilePass
  import opened SyncTheorems
  import opened SyncRuns

  /** The pass replaces the remote copy of a changed file. */
  predicate Replaced(env: Env, a: Pass, n: string) {
    n in env.scan && n in a.entries && n !in a.conflicted && n !in a.deleted && !Matches(a.entries[n], env.scan[n])
  }

  /** Why a pass may delete `id` for `n`, told from the state after the server's actions. */
  predicate Justified(env: Env, a: Pass, n: string, id: nat) {
    && n in a.entries && a.entries[n].remoteId == id && n !in a.conflicted
    && (if n in env.scan then n !in a.deleted && !Matches(a.entries[n], env.scan[n])
        else n !in env.unreadable && n !in a.downloaded)
  }

  lemma UploadOneRemoval(env: Env, p: Pass, m: string)
    requires m in env.scan
    ensures var q := UploadName(env, p, m);
            && (!q.aborted ==> !p.aborted)
            && q.removals == p.removals + (if !p.aborted && Replaced(env, p, m)
                  then [Removal(m, p.entries[m].remoteId)] else [])
            && q.conflicted == p.conflicted && q.deleted == p.deleted && q.downloaded == p.downloaded
            && forall n :: n != m ==> At(q.entries, n) == At(p.entries, n)
  {
  }

  lemma {:induction false} UploadRemovals(env: Env, a: Pass, order: seq<string>, n: string, id: nat)
    requires Distinct(order) && forall m :: m in order ==> m in env.scan
    ensures var q := UploadAll(env, a, order);
            && (Removal(n, id) in q.removals ==>
                  Removal(n, id) in a.removals || (n in order && Replaced(env, a, n) && a.entries[n].remoteId == id))
            && (!q.aborted ==> !a.aborted)
            && (!q.aborted && n in order && Replaced(env, a, n) && a.entries[n].remoteId == id ==>
                  Removal(n, id) in q.removals)
            && (n !in order ==> At(q.entries, n) == At(a.entries, n))
            && q.conflicted == a.conflicted && q.deleted == a.deleted && q.downloaded == a.downloaded
            && a.removals <= q.removals
  {
    if order != [] {
      var front, m := order[..|order| - 1], order[|order| - 1];
      FrontOfDistinct(order);
      UploadRemovals(env, a, front, n, id);
      UploadRemovals(env, a, front, m, id);
      var p := UploadAll(env, a, front);
      UploadOneRemoval(env, p, m);
      assert At(p.entries, m) == At(a.entries, m);
      assert Replaced(env, p, m) <==> Replaced(env, a, m);
    }
  }

  lemma {:induction false} RemoveRemovals(env: Env, u: Pass, order: seq<string>, n: string, id: nat)
    requires Distinct(order)
    ensures var q := RemoveAll(env, u, order);
            && (Removal(n, id) in q.removals ==>
                  Removal(n, id) in u.removals || (n in order && n in u.entries && u.entries[n].remoteId == id))
            && (!q.aborted && n in order && n in u.entries && u.entries[n].remoteId == id ==>
                  Removal(n, id) in q.removals)
            && (n !in order ==> At(q.entries, n) == At(u.entries, n))
            && q.aborted == u.aborted && u.removals <= q.removals
  {
    if order != [] {
      var front, m := order[..|order| - 1], order[|order| - 1];
      FrontOfDistinct(order);
      RemoveRemovals(env, u, front, n, id);
      RemoveRemovals(env, u, front, m, id);
    }
  }

  /** For any client, listing and diff response: a remote delete is made only for the tracked
      id of an unconflicted name that was scanned with other content and not just deleted by
      the server, or that is absent, readable and not just downloaded; and a completed pass
      makes exactly these deletes. */
  lemma RemovalsJustified(env: Env, p: Pass, actions: seq<Action>, order: seq<string>, removals: seq<string>,
                          n: string, id: nat)
    requires p.removals == [] && Visits(order, env.scan.Keys)
    requires Visits(removals, RemovedLocally(env, UploadAll(env, ApplyActions(env, p, actions), order)))
    ensures var a := ApplyActions(env, p, actions);
            var f := RemoveAll(env, UploadAll(env, a, order), removals);
            && (Removal(n, id) in f.removals ==> Justified(env, a, n, id))
            && (!f.aborted ==> (Removal(n, id) in f.removals <==> Justified(env, a, n, id)))
  {
    var a := ApplyActions(env, p, actions);
    var u := UploadAll(env, a, order);
    ApplyActionsKeepsTables(env, p, actions);
    UploadRemovals(env, a, order, n, id);
    RemoveRemovals(env, u, removals, n, id);
    assert n in removals <==> n in RemovedLocally(env, u);
  }

  // ---- Switching folders ------------------------------------------------------------------

  /** A live row no hash is known of, under a scanned name with other content, not buried. */
  ghost predicate UnhashedClash(env: Env, s: Tables, owner: nat, n: string) {
    var remote := FindName(s.files, owner, n);
    && n in env.scan && remote.Some? && remote.value.hash == Unhashed && remote.value.body != env.scan[n]
    && !BuriedName(s.deletions, owner, n, 0)
  }

  lemma FreshJustifiedIff(env: Env, c: Client, s: Tables, budget: nat, n: string, id: nat)
    requires Valid(s) && PassEnv(env, c, s)
    requires c.entries == map[] && c.cursor == 0 && c.conflicts == []
    requires forall r :: r in s.files ==> r.hash == Unhashed || r.hash == Digest(r.body)
    requires !AfterActions(env, c, s, budget).aborted
    ensures Justified(env, AfterActions(env, c, s, budget), n, id)
            <==> UnhashedClash(env, s, c.owner, n) && FindName(s.files, c.owner, n).value.id == id
  {
    var a := AfterActions(env, c, s, budget);
    ActionsTable(env, c, s, budget, n);
    assert SlotOf(a, n).entry == At(a.entries, n);
  }

  lemma UnsettledKeepsRemovals(env: Env, p: Pass, order: seq<string>, removals: seq<string>)
    requires p.aborted && forall n :: n in order ==> n in env.scan
    ensures RemoveAll(env, UploadAll(env, p, order), removals).removals == p.removals
  {
    AbortedStays(env, p, order, removals);
  }

  /** Switching is safe, exactly: the first pass after selecting another folder deletes
      remotely only unhashed rows that clash with a scanned file, a completed one all of them,
      and none when all rows are hashed, aborted or not. */
  lemma SwitchDeletesIff(env: Env, was: Client, folder: map<string, Content>, s: Tables,
                         budget: nat, order: seq<string>, removals: seq<string>, n: string, id: nat)
    requires var c := SelectFolder(was, folder);
             Valid(s) && PassEnv(env, c, s) && Orders(env, c, s, budget, order, removals)
    requires forall r :: r in s.files ==> r.hash == Unhashed || r.hash == Digest(r.body)
    ensures var f := RunPass(env, SelectFolder(was, folder), s, budget, order, removals);
            var clash := UnhashedClash(env, s, was.owner, n) && FindName(s.files, was.owner, n).value.id == id;
            && (Removal(n, id) in f.removals ==> clash)
            && (!f.aborted ==> (Removal(n, id) in f.removals <==> clash))
  {
    var c := SelectFolder(was, folder);
    var p, actions := StartPass(c, s, budget), DiffActions(s, c.owner, c.cursor, ManifestOf(env.scan));
    var a := AfterActions(env, c, s, budget);
    ApplyActionsKeepsTables(env, p, actions);
    if a.aborted {
      UnsettledKeepsRemovals(env, a, order, removals);
    } else {
      RemovalsJustified(env, p, actions, order, removals, n, id);
      FreshJustifiedIff(env, c, s, budget, n, id);
    }
    AbortedStays(env, a, order, removals);
  }

  lemma SwitchIsSafe(env: Env, was: Client, folder: map<string, Content>, s: Tables,
                     budget: nat, order: seq<string>, removals: seq<string>)
    requires var c := SelectFolder(was, folder);
             Valid(s) && Hashed(s.files) && PassEnv(env, c, s) && Orders(env, c, s, budget, order, removals)
    ensures RunPass(env, SelectFolder(was, folder), s, budget, order, removals).removals == []
  {
    var f := RunPass(env, SelectFolder(was, folder), s, budget, order, removals);
    if f.removals != [] {
      var r := f.removals[0];
      assert Removal(r.name, r.id) in f.removals;
      SwitchDeletesIff(env, was, folder, s, budget, order, removals, r.name, r.id);
    }
  }
}
