/** SyncService.Diff: a version window and a client manifest become client actions, every
    changed row first and every tombstone after. */
module SyncService {
  import opened Basics
  import opened Repo
  import opened FileService
  import opened Cursor

  /** `details` is the conflict's remote size; a response may lack it. */
  datatype Action =
    | Download(name: string, version: nat)
    | DeleteLocal(name: string, version: nat)
    | Clash(name: string, version: nat, details: Option<nat>)

  datatype ManifestEntry = ManifestEntry(name: string, hash: Hash)

  /** localHashByName: a name listed twice keeps its last hash. */
  function HashByName(manifest: seq<ManifestEntry>): map<string, Hash> {
    if manifest == [] then map[]
    else
      var last := manifest[|manifest| - 1];
      HashByName(manifest[..|manifest| - 1])[last.name := last.hash]
  }

  /** What a changed row asks of the client: nothing when both hashes are known and equal. */
  function RowAction(row: Row, local: map<string, Hash>): Option<Action> {
    if row.name in local && local[row.name] != Unhashed && row.hash != Unhashed then
      if local[row.name] == row.hash then None else Some(Clash(row.name, row.version, Some(|row.body|)))
    else Some(Download(row.name, row.version))
  }

  function RowActions(changed: seq<Row>, local: map<string, Hash>): seq<Action> {
    if changed == [] then []
    else
      var a := RowAction(changed[|changed| - 1], local);
      RowActions(changed[..|changed| - 1], local) + if a.Some? then [a.value] else []
  }

  function TombActions(deleted: seq<Tomb>): seq<Action> {
    if deleted == [] then []
    else
      var d := deleted[|deleted| - 1];
      TombActions(deleted[..|deleted| - 1]) + [DeleteLocal(d.row.name, d.version)]
  }

  function DiffActions(s: Tables, owner: nat, since: nat, local: map<string, Hash>): seq<Action> {
    RowActions(Changed(s.files, owner, since), local) + TombActions(Deleted(s.deletions, owner, since))
  }

  method HashManifest(manifest: seq<ManifestEntry>) returns (localHashByName: map<string, Hash>)
    ensures localHashByName == HashByName(manifest)
  {
    localHashByName := map[];
    for i := 0 to |manifest|
      invariant localHashByName == HashByName(manifest[..i])
    {
      assert manifest[..i + 1][..i] == manifest[..i];
      localHashByName := localHashByName[manifest[i].name := manifest[i].hash];
    }
    assert manifest[..|manifest|] == manifest;
  }

  /** Diff's first loop over the changed rows. */
  method EmitRows(changed: seq<Row>, localHashByName: map<string, Hash>) returns (actions: seq<Action>)
    ensures actions == RowActions(changed, localHashByName)
  {
    actions := [];
    for i := 0 to |changed|
      invariant actions == RowActions(changed[..i], localHashByName)
    {
      assert changed[..i + 1][..i] == changed[..i];
      var f := changed[i];
      if f.name in localHashByName && localHashByName[f.name] != Unhashed && f.hash != Unhashed {
        if localHashByName[f.name] == f.hash {
          continue;
        }
        actions := actions + [Clash(f.name, f.version, Some(|f.body|))];
        continue;
      }
      actions := actions + [Download(f.name, f.version)];
    }
    assert changed[..|changed|] == changed;
  }

  /** Diff's second loop, over the tombstones. */
  method EmitTombs(deleted: seq<Tomb>) returns (actions: seq<Action>)
    ensures actions == TombActions(deleted)
  {
    actions := [];
    for i := 0 to |deleted|
      invariant actions == TombActions(deleted[..i])
    {
      assert deleted[..i + 1][..i] == deleted[..i];
      actions := actions + [DeleteLocal(deleted[i].row.name, deleted[i].version)];
    }
    assert deleted[..|deleted|] == deleted;
  }

  method Diff(repo: FileRepo, owner: nat, since: nat, manifest: seq<ManifestEntry>)
    returns (actions: seq<Action>, newVersion: nat)
    ensures actions == DiffActions(repo.State(), owner, since, HashByName(manifest))
    ensures newVersion == NewCursor(repo.State(), owner, since)
  {
    var changed, deleted, currentVersion := repo.ListChangedSince(owner, since);
    var localHashByName := HashManifest(manifest);
    var rowActions := EmitRows(changed, localHashByName);
    var tombActions := EmitTombs(deleted);
    actions, newVersion := rowActions + tombActions, currentVersion;
  }

  // ---- What is emitted --------------------------------------------------------------------

  /** What a changed row calls for: nothing when both hashes are known and equal, a conflict
      when they are known and differ, a download otherwise. */
  ghost predicate CallsFor(r: Row, local: map<string, Hash>, a: Action) {
    var compared := r.name in local && local[r.name] != Unhashed && r.hash != Unhashed;
    match a
    case Download(name, version) => name == r.name && version == r.version && !compared
    case Clash(name, version, details) =>
      name == r.name && version == r.version && details == Some(|r.body|) && compared && local[r.name] != r.hash
    case DeleteLocal(_, _) => false
  }

  lemma {:induction false} RowActionsIff(changed: seq<Row>, local: map<string, Hash>, a: Action)
    ensures a in RowActions(changed, local) <==> exists r :: r in changed && CallsFor(r, local, a)
  {
    if changed != [] {
      var front, last := changed[..|changed| - 1], changed[|changed| - 1];
      RowActionsIff(front, local, a);
      assert forall r :: r in changed <==> r in front || r == last;
      assert RowAction(last, local) == Some(a) <==> CallsFor(last, local, a);
    }
  }

  lemma {:induction false} TombActionsIff(deleted: seq<Tomb>, a: Action)
    ensures a in TombActions(deleted) <==> exists t :: t in deleted && a == DeleteLocal(t.row.name, t.version)
  {
    if deleted != [] {
      var front, last := deleted[..|deleted| - 1], deleted[|deleted| - 1];
      TombActionsIff(front, a);
      assert forall t :: t in deleted <==> t in front || t == last;
    }
  }

  /** Every action is about a row or tombstone of the owner's above the cursor, and every such
      row and tombstone gets the action it calls for. */
  lemma DiffActionsIff(s: Tables, owner: nat, since: nat, local: map<string, Hash>, a: Action)
    ensures a in DiffActions(s, owner, since, local)
            <==> || (exists r :: r in s.files && r.owner == owner && r.version > since && CallsFor(r, local, a))
                 || (exists t :: t in s.deletions && t.row.owner == owner && t.version > since
                                 && a == DeleteLocal(t.row.name, t.version))
  {
    var rows, tombs := Changed(s.files, owner, since), Deleted(s.deletions, owner, since);
    ChangedMembers(s.files, owner, since);
    DeletedMembers(s.deletions, owner, since);
    RowActionsIff(rows, local, a);
    TombActionsIff(tombs, a);
  }

  ghost predicate ByVersion(actions: seq<Action>) {
    forall i, j :: 0 <= i < j < |actions| ==> actions[i].version < actions[j].version
  }

  lemma ByVersionAppend(actions: seq<Action>, a: Action)
    requires ByVersion(actions) && forall b :: b in actions ==> b.version < a.version
    ensures ByVersion(actions + [a])
  {
  }

  lemma {:induction false} RowsByVersion(changed: seq<Row>, local: map<string, Hash>)
    requires Ascending(changed)
    ensures ByVersion(RowActions(changed, local))
    ensures forall a :: a in RowActions(changed, local) ==> !a.DeleteLocal?
  {
    if changed != [] {
      var front, last := changed[..|changed| - 1], changed[|changed| - 1];
      RowsByVersion(front, local);
      forall a | a in RowActions(front, local)
        ensures a.version < last.version
      {
        RowActionsIff(front, local, a);
        var r :| r in front && CallsFor(r, local, a);
      }
      if RowAction(last, local).Some? {
        ByVersionAppend(RowActions(front, local), RowAction(last, local).value);
      }
    }
  }

  lemma {:induction false} TombsByVersion(deleted: seq<Tomb>)
    requires TombsAscending(deleted)
    ensures ByVersion(TombActions(deleted))
    ensures forall a :: a in TombActions(deleted) ==> a.DeleteLocal?
  {
    if deleted != [] {
      var front, last := deleted[..|deleted| - 1], deleted[|deleted| - 1];
      TombsByVersion(front);
      forall a | a in TombActions(front)
        ensures a.version < last.version
      {
        TombActionsIff(front, a);
        var t :| t in front && a == DeleteLocal(t.row.name, t.version);
      }
      ByVersionAppend(TombActions(front), DeleteLocal(last.row.name, last.version));
    }
  }

  /** No action comes twice, rows come before tombstones, and each kind in version order. */
  lemma DiffInOrder(s: Tables, owner: nat, since: nat, local: map<string, Hash>) returns (k: nat)
    requires Ascending(s.files) && TombsAscending(s.deletions)
    ensures var actions := DiffActions(s, owner, since, local);
            && k <= |actions| && ByVersion(actions[..k]) && ByVersion(actions[k..])
            && forall i :: 0 <= i < |actions| ==> (actions[i].DeleteLocal? <==> i >= k)
  {
    var rows, tombs := Changed(s.files, owner, since), Deleted(s.deletions, owner, since);
    ChangedAscending(s.files, owner, since);
    DeletedAscending(s.deletions, owner, since);
    RowsByVersion(rows, local);
    TombsByVersion(tombs);
    var first, second := RowActions(rows, local), TombActions(tombs);
    k := |first|;
    assert (first + second)[..k] == first && (first + second)[k..] == second;
    SplitKinds(first, second);
  }

  lemma SplitKinds(first: seq<Action>, second: seq<Action>)
    requires (forall a :: a in first ==> !a.DeleteLocal?) && forall a :: a in second ==> a.DeleteLocal?
    ensures forall i :: 0 <= i < |first + second| ==> ((first + second)[i].DeleteLocal? <==> i >= |first|)
  {
    forall i | 0 <= i < |first + second|
      ensures (first + second)[i] in if i < |first| then first else second
    {
    }
  }

  /** The manifest's hash of a name is the one of its last entry. */
  lemma {:induction false} HashByNameIs(manifest: seq<ManifestEntry>, n: string)
    ensures n in HashByName(manifest) <==> exists i :: 0 <= i < |manifest| && manifest[i].name == n
    ensures forall i :: 0 <= i < |manifest| && manifest[i].name == n
                        && (forall j :: i < j < |manifest| ==> manifest[j].name != n) ==>
              n in HashByName(manifest) && HashByName(manifest)[n] == manifest[i].hash
  {
    if manifest != [] {
      var front, last := manifest[..|manifest| - 1], manifest[|manifest| - 1];
      HashByNameIs(front, n);
      assert forall i :: 0 <= i < |front| ==> front[i] == manifest[i];
      if last.name == n {
        assert manifest[|manifest| - 1].name == n;
      }
    }
  }

  // ---- What the emitted order means -------------------------------------------------------

  function TombNames(tombs: seq<Tomb>): set<string> {
    set t | t in tombs :: t.row.name
  }

  function RowNames(rows: seq<Row>): set<string> {
    set r | r in rows :: r.name
  }

  /** The owner's live rows by name. */
  function LiveByName(files: seq<Row>, owner: nat): map<string, Row> {
    map n | n in OwnedNames(files, owner) && Taken(files, owner, n) :: FindName(files, owner, n).value
  }

  /** A client that holds only a name-keyed copy and obeys the actions in order; a download
      fetches the live row of that name, and is skipped when there is none. */
  function Replay(mirror: map<string, Row>, actions: seq<Action>, live: map<string, Row>): map<string, Row> {
    if actions == [] then mirror
    else
      var m, last := Replay(mirror, actions[..|actions| - 1], live), actions[|actions| - 1];
      match last
      case Download(name, _) => if name in live then m[name := live[name]] else m
      case DeleteLocal(name, _) => m - {name}
      case Clash(_, _, _) => m
  }

  lemma {:induction false} ReplayAppend(mirror: map<string, Row>, a: seq<Action>, b: seq<Action>,
                                        live: map<string, Row>)
    ensures Replay(mirror, a + b, live) == Replay(Replay(mirror, a, live), b, live)
  {
    if b == [] {
      assert a + b == a;
    } else {
      assert (a + b)[..|a + b| - 1] == a + b[..|b| - 1];
      ReplayAppend(mirror, a, b[..|b| - 1], live);
    }
  }

  lemma {:induction false} ReplayRows(mirror: map<string, Row>, rows: seq<Row>, live: map<string, Row>)
    requires forall r :: r in rows ==> r.name in live
    ensures Replay(mirror, RowActions(rows, map[]), live)
            == mirror + map n | n in RowNames(rows) && n in live :: live[n]
  {
    if rows != [] {
      var front, last := rows[..|rows| - 1], rows[|rows| - 1];
      assert last in rows && forall r :: r in front ==> r in rows;
      ReplayRows(mirror, front, live);
      ReplayLastRow(mirror, rows, live);
      RowNamesLast(rows);
      Overlay(mirror, RowNames(front), last.name, live);
    }
  }

  lemma RowNamesLast(rows: seq<Row>)
    requires rows != []
    ensures RowNames(rows) == RowNames(rows[..|rows| - 1]) + {rows[|rows| - 1].name}
  {
    var front, last := rows[..|rows| - 1], rows[|rows| - 1];
    assert forall r :: r in rows <==> r in front || r == last;
  }

  lemma Overlay(mirror: map<string, Row>, names: set<string>, n: string, live: map<string, Row>)
    requires n in live
    ensures (mirror + map k | k in names && k in live :: live[k])[n := live[n]]
            == mirror + map k | k in names + {n} && k in live :: live[k]
  {
  }

  lemma ReplayLastRow(mirror: map<string, Row>, rows: seq<Row>, live: map<string, Row>)
    requires rows != [] && rows[|rows| - 1].name in live
    ensures var front, n := rows[..|rows| - 1], rows[|rows| - 1].name;
            Replay(mirror, RowActions(rows, map[]), live)
                == Replay(mirror, RowActions(front, map[]), live)[n := live[n]]
  {
    var acts := RowActions(rows, map[]);
    assert acts[..|acts| - 1] == RowActions(rows[..|rows| - 1], map[]);
  }

  lemma {:induction false} ReplayTombs(mirror: map<string, Row>, tombs: seq<Tomb>, live: map<string, Row>)
    ensures Replay(mirror, TombActions(tombs), live) == mirror - TombNames(tombs)
  {
    if tombs != [] {
      var front, last := tombs[..|tombs| - 1], tombs[|tombs| - 1];
      assert forall t :: t in tombs <==> t in front || t == last;
      assert TombNames(tombs) == TombNames(front) + {last.row.name};
      ReplayTombs(mirror, front, live);
      var acts := TombActions(tombs);
      assert acts[..|acts| - 1] == TombActions(front);
    }
  }

  lemma LiveRow(files: seq<Row>, owner: nat, r: Row)
    requires UniqueNames(files) && r in files && r.owner == owner
    ensures FindName(files, owner, r.name) == Some(r)
    ensures r.name in LiveByName(files, owner) && LiveByName(files, owner)[r.name] == r
  {
    assert FindName(files, owner, r.name).Some?;
    assert r.name in OwnedNames(files, owner);
  }

  /** Rows that a window does not report changed or buried are the rows the snapshot had. */
  lemma MirrorCatchesUp(s: Tables, t: Tables, owner: nat, cursor: nat, n: string)
    requires Valid(t) && UniqueNames(s.files) && LaterFiles(s, t) && cursor <= s.lastVersion
    requires forall r :: r in s.files && r.owner == owner ==> r.version <= cursor
    requires n !in TombNames(Deleted(t.deletions, owner, cursor))
    requires n !in RowNames(Changed(t.files, owner, cursor))
    ensures FindName(t.files, owner, n) == FindName(s.files, owner, n)
  {
    ChangedMembers(t.files, owner, cursor);
    DeletedMembers(t.deletions, owner, cursor);
    var was, now := FindName(s.files, owner, n), FindName(t.files, owner, n);
    if now.Some? {
      assert now.value !in Changed(t.files, owner, cursor);
      assert now.value in s.files;
    }
    if was.Some? {
      assert was.value in t.files || BuriedSince(t.deletions, was.value, s.lastVersion);
    }
  }

  /** Obeying the actions in their order, with no manifest, turns a mirror of the state at the
      cursor into the live rows minus the names buried in the window. */
  lemma ReplayedDiff(s: Tables, owner: nat, since: nat, writes: seq<Write>)
    requires Valid(s) && since <= s.lastVersion
    ensures var t, cursor := Run(s, writes), NewCursor(s, owner, since);
            var live := LiveByName(t.files, owner);
            Replay(LiveByName(s.files, owner), DiffActions(t, owner, cursor, map[]), live)
            == live - TombNames(Deleted(t.deletions, owner, cursor))
  {
    var t, cursor := Run(s, writes), NewCursor(s, owner, since);
    var live, mirror := LiveByName(t.files, owner), LiveByName(s.files, owner);
    var rows, tombs := Changed(t.files, owner, cursor), Deleted(t.deletions, owner, cursor);
    RunLater(s, writes);
    CursorCovers(s, owner, since);
    ReplayAppend(mirror, RowActions(rows, map[]), TombActions(tombs), live);
    ChangedMembers(t.files, owner, cursor);
    forall r | r in rows
      ensures r.name in live && live[r.name] == r
    {
      LiveRow(t.files, owner, r);
    }
    ReplayRows(mirror, rows, live);
    var m := mirror + map n | n in RowNames(rows) && n in live :: live[n];
    ReplayTombs(m, tombs, live);
    MirrorMinusTombs(s, t, owner, cursor);
  }

  lemma MirrorMinusTombs(s: Tables, t: Tables, owner: nat, cursor: nat)
    requires Valid(t) && UniqueNames(s.files) && LaterFiles(s, t) && cursor <= s.lastVersion
    requires forall r :: r in s.files && r.owner == owner ==> r.version <= cursor
    ensures var live, rows := LiveByName(t.files, owner), Changed(t.files, owner, cursor);
            var gone := TombNames(Deleted(t.deletions, owner, cursor));
            (LiveByName(s.files, owner) + map n | n in RowNames(rows) && n in live :: live[n]) - gone == live - gone
  {
    var live, names := LiveByName(t.files, owner), RowNames(Changed(t.files, owner, cursor));
    var gone, mirror := TombNames(Deleted(t.deletions, owner, cursor)), LiveByName(s.files, owner);
    ChangedLive(t, owner, cursor);
    forall n | n !in gone && n !in names
      ensures (n in mirror <==> n in live) && (n in mirror ==> mirror[n] == live[n])
    {
      MirrorAgrees(s, t, owner, cursor, n);
    }
    OverlayOutside(mirror, live, names, gone);
  }

  lemma ChangedLive(t: Tables, owner: nat, cursor: nat)
    requires Valid(t)
    ensures RowNames(Changed(t.files, owner, cursor)) <= LiveByName(t.files, owner).Keys
  {
    ChangedMembers(t.files, owner, cursor);
    forall r | r in Changed(t.files, owner, cursor)
      ensures r.name in LiveByName(t.files, owner)
    {
      LiveRow(t.files, owner, r);
    }
  }

  lemma OverlayOutside(mirror: map<string, Row>, live: map<string, Row>, names: set<string>, gone: set<string>)
    requires names <= live.Keys
    requires forall n :: n !in gone && n !in names ==>
               (n in mirror <==> n in live) && (n in mirror ==> mirror[n] == live[n])
    ensures (mirror + map n | n in names && n in live :: live[n]) - gone == live - gone
  {
    SameOutside(mirror + map n | n in names && n in live :: live[n], live, gone);
  }

  lemma MirrorAgrees(s: Tables, t: Tables, owner: nat, cursor: nat, n: string)
    requires Valid(t) && UniqueNames(s.files) && LaterFiles(s, t) && cursor <= s.lastVersion
    requires forall r :: r in s.files && r.owner == owner ==> r.version <= cursor
    requires n !in TombNames(Deleted(t.deletions, owner, cursor))
    requires n !in RowNames(Changed(t.files, owner, cursor))
    ensures var mirror, live := LiveByName(s.files, owner), LiveByName(t.files, owner);
            (n in mirror <==> n in live) && (n in mirror ==> mirror[n] == live[n])
  {
    MirrorCatchesUp(s, t, owner, cursor, n);
    InMirrorIff(s.files, owner, n);
    InMirrorIff(t.files, owner, n);
  }

  lemma SameOutside(a: map<string, Row>, b: map<string, Row>, gone: set<string>)
    requires forall n :: n !in gone ==> (n in a <==> n in b) && (n in a ==> a[n] == b[n])
    ensures a - gone == b - gone
  {
  }

  lemma InMirrorIff(files: seq<Row>, owner: nat, n: string)
    ensures n in LiveByName(files, owner) <==> FindName(files, owner, n).Some?
    ensures n in LiveByName(files, owner) ==> LiveByName(files, owner)[n] == FindName(files, owner, n).value
  {
  }

  /** The replayed mirror is the live folder if and only if no live name was buried in the
      window: a delete and re-create under one name ends with the delete. */
  lemma ReplayedDiffExactIff(s: Tables, owner: nat, since: nat, writes: seq<Write>)
    requires Valid(s) && since <= s.lastVersion
    ensures var t, cursor := Run(s, writes), NewCursor(s, owner, since);
            var live := LiveByName(t.files, owner);
            Replay(LiveByName(s.files, owner), DiffActions(t, owner, cursor, map[]), live) == live
            <==> live.Keys !! TombNames(Deleted(t.deletions, owner, cursor))
  {
    ReplayedDiff(s, owner, since, writes);
    var t, cursor := Run(s, writes), NewCursor(s, owner, since);
    var live, gone := LiveByName(t.files, owner), TombNames(Deleted(t.deletions, owner, cursor));
    assert (live - gone).Keys == live.Keys - gone;
    if live.Keys !! gone {
      assert live - gone == live;
    }
  }
}
