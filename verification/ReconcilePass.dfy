/** Whole passes: folding the per-name steps over any visiting order, the real server diff, and
    the resulting theorem that a completed pass carries out each name's own decision. */
module ReconcilePass {
  import opened Basics
  import opened Repo
  import opened SyncService
  import opened Reconcile
  import opened ReconcileTable

  /** The fate of a name as `p` sees it. */
  function FateOf(env: Env, p: Pass, n: string): Fate {
    Decide(SlotOf(p, n), SeenOf(env, p.tables.files, n))
  }

  lemma FrontOfDistinct(order: seq<string>)
    requires order != [] && Distinct(order)
    ensures Distinct(order[..|order| - 1])
    ensures order[|order| - 1] !in order[..|order| - 1]
    ensures forall n :: n in order <==> n in order[..|order| - 1] || n == order[|order| - 1]
  {
  }

  /** Uploads in any order: the pass stays sound at every prefix, aborted or not; if it gets
      through, visited names meet their fate and the others are untouched. */
  lemma {:induction false} UploadAllNames(env: Env, p: Pass, order: seq<string>, m: string, since: nat)
    requires !p.aborted && Settled(env, p) && since <= p.tables.lastVersion
    requires Distinct(order) && forall n :: n in order ==> n in env.scan && Uploadable(env, p, n)
    ensures var q := UploadAll(env, p, order);
            && Sound(env, p, q, since)
            && (!q.aborted ==> if m in order then Fulfilled(env, p, q, m, FateOf(env, p, m), since)
                               else Untouched(env, p, q, m, since))
  {
    if order == [] {
      LiveIsTracked(p.tables, env.owner, since, p.entries);
    } else {
      var front, n := order[..|order| - 1], order[|order| - 1];
      FrontOfDistinct(order);
      var f := UploadAll(env, p, front);
      UploadAllNames(env, p, front, n, since);
      UploadAllNames(env, p, front, m, since);
      if !f.aborted {
        UploadableStill(env, p, f, n, since);
        UploadStep(env, f, n, since);
        SoundAgain(env, p, f, UploadName(env, f, n), since);
        if m != n {
          UploadOthers(env, f, n, m, since);
        }
      }
    }
  }

  lemma UploadableStill(env: Env, p: Pass, f: Pass, n: string, since: nat)
    requires Uploadable(env, p, n) && Untouched(env, p, f, n, since) && f.deleted == p.deleted && f.folder == p.folder
    ensures Uploadable(env, f, n) && FateOf(env, f, n) == FateOf(env, p, n)
  {
  }

  lemma SoundAgain(env: Env, p: Pass, f: Pass, q: Pass, since: nat)
    requires Sound(env, p, f, since) && Sound(env, f, q, since)
    ensures Sound(env, p, q, since)
  {
  }

  lemma RemoveStep(env: Env, p: Pass, n: string, m: string, since: nat)
    requires !p.aborted && Settled(env, p) && since <= p.tables.lastVersion && n in p.entries
    ensures var q := RemoveName(env, p, n);
            && !q.aborted && Sound(env, p, q, since)
            && (if m == n then Fulfilled(env, p, q, m, Drop, since) else Untouched(env, p, q, m, since))
  {
    RemoveSound(env, p, n, since);
    if m != n {
      RemoveOthers(env, p, n, m, since);
    }
  }

  lemma RemoveSound(env: Env, p: Pass, n: string, since: nat)
    requires !p.aborted && Settled(env, p) && since <= p.tables.lastVersion && n in p.entries
    ensures var q := RemoveName(env, p, n);
            !q.aborted && Sound(env, p, q, since) && Fulfilled(env, p, q, n, Drop, since)
  {
    DeleteStep(env, p, n, since);
    RemoveKeepsLive(env, p, n);
    var q := RemoveName(env, p, n);
    LiveIsTracked(q.tables, env.owner, since, q.entries);
  }

  lemma RemoveOthers(env: Env, p: Pass, n: string, m: string, since: nat)
    requires !p.aborted && Settled(env, p) && since <= p.tables.lastVersion && n in p.entries && m != n
    ensures Untouched(env, p, RemoveName(env, p, n), m, since)
  {
    var d := RemoteDelete(env, p, n, p.entries[n].remoteId);
    DeleteOthers(env, p, n, m, since);
    assert RemoveName(env, p, n) == d.(entries := d.entries - {n});
  }

  lemma RemoveKeepsLive(env: Env, p: Pass, n: string)
    requires !p.aborted && n in p.entries
    requires var t := RemoteDelete(env, p, n, p.entries[n].remoteId).tables;
             forall k :: k in p.entries && k != n ==> EntryLive(t.files, env.owner, k, p.entries[k])
    ensures var q := RemoveName(env, p, n); AllLive(q.tables.files, env.owner, q.entries)
  {
    var q := RemoveName(env, p, n);
    assert forall k :: k in q.entries ==> k in p.entries && k != n;
  }

  lemma {:induction false} RemoveAllNames(env: Env, p: Pass, order: seq<string>, m: string, since: nat)
    requires !p.aborted && Settled(env, p) && since <= p.tables.lastVersion
    requires Distinct(order) && forall n :: n in order ==> n in p.entries
    ensures var q := RemoveAll(env, p, order);
            && !q.aborted && Sound(env, p, q, since)
            && (if m in order then Fulfilled(env, p, q, m, Drop, since) else Untouched(env, p, q, m, since))
  {
    if order == [] {
      LiveIsTracked(p.tables, env.owner, since, p.entries);
    } else {
      var front, n := order[..|order| - 1], order[|order| - 1];
      FrontOfDistinct(order);
      var f := RemoveAll(env, p, front);
      RemoveAllNames(env, p, front, n, since);
      RemoveAllNames(env, p, front, m, since);
      assert n in p.entries;
      assert SlotOf(f, n) == SlotOf(p, n);
      RemoveStep(env, f, n, m, since);
    }
  }

  // ---- The actions of the real diff, name by name -----------------------------------------

  function ManifestOf(scan: map<string, Content>): map<string, Hash> {
    map n | n in scan :: Digest(scan[n])
  }

  lemma {:induction false} OwnAppend(a: seq<Action>, b: seq<Action>, n: string)
    ensures Own(a + b, n) == Own(a, n) + Own(b, n)
  {
    if b == [] {
      assert a + b == a;
    } else {
      assert (a + b)[..|a + b| - 1] == a + b[..|b| - 1];
      OwnAppend(a, b[..|b| - 1], n);
    }
  }

  lemma {:induction false} SlotFoldAppend(slot: Slot, seen: Seen, a: seq<Action>, b: seq<Action>)
    ensures SlotFold(slot, seen, a + b) == SlotFold(SlotFold(slot, seen, a), seen, b)
  {
    if b == [] {
      assert a + b == a;
    } else {
      assert (a + b)[..|a + b| - 1] == a + b[..|b| - 1];
      SlotFoldAppend(slot, seen, a, b[..|b| - 1]);
    }
  }

  ghost predicate NamedOnce(rows: seq<Row>) {
    forall i, j :: 0 <= i < j < |rows| ==> rows[i].name != rows[j].name
  }

  lemma OwnedNamedOnce(files: seq<Row>, owner: nat, since: nat)
    requires UniqueNames(files) && Ascending(files)
    ensures NamedOnce(Changed(files, owner, since))
  {
    var rows := Changed(files, owner, since);
    ChangedMembers(files, owner, since);
    ChangedAscending(files, owner, since);
    forall i, j | 0 <= i < j < |rows|
      ensures rows[i].name != rows[j].name
    {
      assert rows[i] in rows && rows[j] in rows;
      assert rows[i].version < rows[j].version;
    }
  }

  lemma {:induction false} NoRowActions(rows: seq<Row>, local: map<string, Hash>, n: string)
    requires forall r :: r in rows ==> r.name != n
    ensures Own(RowActions(rows, local), n) == []
  {
    if rows != [] {
      assert rows[|rows| - 1] in rows;
      NoRowActions(rows[..|rows| - 1], local, n);
      OwnLastAction(rows, local, n);
    }
  }

  lemma {:induction false} OwnRowAction(rows: seq<Row>, local: map<string, Hash>, r: Row)
    requires NamedOnce(rows) && r in rows
    ensures Own(RowActions(rows, local), r.name)
            == if RowAction(r, local).Some? then [RowAction(r, local).value] else []
  {
    var front, last := rows[..|rows| - 1], rows[|rows| - 1];
    OwnLastAction(rows, local, r.name);
    OthersNamed(rows);
    if r == last {
      NoRowActions(front, local, r.name);
    } else {
      assert rows == front + [last];
      OwnRowAction(front, local, r);
    }
  }

  lemma OthersNamed(rows: seq<Row>)
    requires NamedOnce(rows) && rows != []
    ensures forall r :: r in rows[..|rows| - 1] ==> r.name != rows[|rows| - 1].name
  {
  }

  lemma OwnLastAction(rows: seq<Row>, local: map<string, Hash>, n: string)
    requires rows != []
    ensures var last := rows[|rows| - 1];
            Own(RowActions(rows, local), n)
            == Own(RowActions(rows[..|rows| - 1], local), n)
               + if last.name == n && RowAction(last, local).Some? then [RowAction(last, local).value] else []
  {
    var a := RowAction(rows[|rows| - 1], local);
    var tail := if a.Some? then [a.value] else [];
    OwnAppend(RowActions(rows[..|rows| - 1], local), tail, n);
    if a.Some? {
      assert tail[..|tail| - 1] == [];
    }
  }

  lemma {:induction false} FoldTombActions(slot: Slot, seen: Seen, tombs: seq<Tomb>, n: string)
    ensures SlotFold(slot, seen, Own(TombActions(tombs), n))
            == if n in TombNames(tombs) then Erase(slot) else slot
  {
    if tombs != [] {
      var front, last := tombs[..|tombs| - 1], tombs[|tombs| - 1];
      FoldTombActions(slot, seen, front, n);
      TombNamesLast(tombs);
      OwnTombLast(tombs, n);
    }
  }

  lemma TombNamesLast(tombs: seq<Tomb>)
    requires tombs != []
    ensures TombNames(tombs) == TombNames(tombs[..|tombs| - 1]) + {tombs[|tombs| - 1].row.name}
  {
    var front, last := tombs[..|tombs| - 1], tombs[|tombs| - 1];
    assert forall t :: t in tombs <==> t in front || t == last;
  }

  lemma OwnTombLast(tombs: seq<Tomb>, n: string)
    requires tombs != []
    ensures var own, front, last := Own(TombActions(tombs), n), tombs[..|tombs| - 1], tombs[|tombs| - 1];
            if last.row.name == n then
              own != [] && own[..|own| - 1] == Own(TombActions(front), n)
              && own[|own| - 1] == DeleteLocal(n, last.version)
            else own == Own(TombActions(front), n)
  {
    var acts := TombActions(tombs);
    assert acts[..|acts| - 1] == TombActions(tombs[..|tombs| - 1]);
  }

  /** The server side of a name at the cursor: its live row, whether that row is in the window,
      and whether the window holds a tombstone of the name. */
  datatype Window = Window(remote: Option<Row>, changed: bool, buried: bool)

  ghost function WindowOf(s: Tables, owner: nat, cursor: nat, n: string): Window {
    var remote := FindName(s.files, owner, n);
    Window(remote, remote.Some? && remote.value.version > cursor, BuriedName(s.deletions, owner, n, cursor))
  }

  /** What the action of a name's changed row does to it. A row without a hash is always downloaded. */
  function AfterRow(slot: Slot, local: Option<Content>, w: Window, n: string): Slot
    requires w.changed ==> w.remote.Some?
  {
    if !w.changed then slot
    else
      var row := w.remote.value;
      if local.Some? && row.hash != Unhashed then
        if row.hash == Digest(local.value) then slot
        else slot.(conflict := Some(Conflict(n, row.id, |local.value|, |row.body|)), conflicted := true)
      else slot.(file := Some(row.body), entry := Some(EntryFor(row.body, row.id)), downloaded := true)
  }

  function Erase(slot: Slot): Slot {
    slot.(file := None, entry := None, deleted := true)
  }

  /** What the real actions do to a name: its row first, its tombstones last. */
  function AfterDiff(slot: Slot, local: Option<Content>, w: Window, n: string): Slot
    requires w.changed ==> w.remote.Some?
  {
    if w.buried then Erase(AfterRow(slot, local, w, n)) else AfterRow(slot, local, w, n)
  }

  /** The most rows one listing returns. */
  const LIST_LIMIT: nat := 1000

  /** The listing is complete: the owner's rows fit in one, and nobody else wrote since. */
  ghost predicate Listed(env: Env, s: Tables) {
    env.remote == LiveByName(s.files, env.owner) && |env.remote| <= LIST_LIMIT
  }

  lemma SeenLive(env: Env, s: Tables, n: string)
    requires Valid(s) && Listed(env, s)
    ensures var remote := FindName(s.files, env.owner, n);
            SeenOf(env, s.files, n)
            == Seen(At(env.scan, n), n in env.unreadable, remote, if remote.Some? then Some(remote.value.body)
                else None)
  {
  }

  lemma DiffOnSlot(env: Env, s: Tables, cursor: nat, slot: Slot, n: string)
    requires Valid(s) && Listed(env, s)
    ensures SlotFold(slot, SeenOf(env, s.files, n), Own(DiffActions(s, env.owner, cursor, ManifestOf(env.scan)), n))
            == AfterDiff(slot, At(env.scan, n), WindowOf(s, env.owner, cursor, n), n)
  {
    var rows, tombs := Changed(s.files, env.owner, cursor), Deleted(s.deletions, env.owner, cursor);
    var local, seen := ManifestOf(env.scan), SeenOf(env, s.files, n);
    var first := Own(RowActions(rows, local), n);
    OwnAppend(RowActions(rows, local), TombActions(tombs), n);
    SlotFoldAppend(slot, seen, first, Own(TombActions(tombs), n));
    FoldTombActions(SlotFold(slot, seen, first), seen, tombs, n);
    WindowMembers(s, env.owner, cursor, n);
    RowActionOnSlot(env, s, cursor, slot, n);
  }

  lemma WindowMembers(s: Tables, owner: nat, cursor: nat, n: string)
    requires Valid(s)
    ensures n in TombNames(Deleted(s.deletions, owner, cursor)) <==> WindowOf(s, owner, cursor, n).buried
    ensures var w, rows := WindowOf(s, owner, cursor, n), Changed(s.files, owner, cursor);
            && NamedOnce(rows)
            && (if w.changed then w.remote.value in rows && w.remote.value.name == n
                else forall r :: r in rows ==> r.name != n)
  {
    ChangedMembers(s.files, owner, cursor);
    DeletedMembers(s.deletions, owner, cursor);
    OwnedNamedOnce(s.files, owner, cursor);
    forall r | r in Changed(s.files, owner, cursor) && r.name == n
      ensures FindName(s.files, owner, n) == Some(r)
    {
      FindNameUnique(s.files, r);
    }
  }

  lemma RowActionOnSlot(env: Env, s: Tables, cursor: nat, slot: Slot, n: string)
    requires Valid(s) && Listed(env, s)
    ensures SlotFold(slot, SeenOf(env, s.files, n),
                     Own(RowActions(Changed(s.files, env.owner, cursor), ManifestOf(env.scan)), n))
            == AfterRow(slot, At(env.scan, n), WindowOf(s, env.owner, cursor, n), n)
  {
    var rows, w := Changed(s.files, env.owner, cursor), WindowOf(s, env.owner, cursor, n);
    var local, seen := ManifestOf(env.scan), SeenOf(env, s.files, n);
    WindowMembers(s, env.owner, cursor, n);
    SeenLive(env, s, n);
    RowsOnSlot(slot, seen, rows, local, w, n);
  }

  lemma RowsOnSlot(slot: Slot, seen: Seen, rows: seq<Row>, local: map<string, Hash>, w: Window, n: string)
    requires NamedOnce(rows)
    requires if w.changed then w.remote.Some? && w.remote.value in rows && w.remote.value.name == n
             else forall r :: r in rows ==> r.name != n
    requires w.changed ==> seen.remote == w.remote && seen.served == Some(w.remote.value.body)
    requires At(local, n) == if seen.local.Some? then Some(Digest(seen.local.value)) else None
    ensures SlotFold(slot, seen, Own(RowActions(rows, local), n)) == AfterRow(slot, seen.local, w, n)
  {
    if w.changed {
      OwnRowAction(rows, local, w.remote.value);
      OneRowAction(slot, seen, w.remote.value, local, n);
    } else {
      NoRowActions(rows, local, n);
    }
  }

  lemma OneRowAction(slot: Slot, seen: Seen, r: Row, local: map<string, Hash>, n: string)
    requires r.name == n
    requires seen.remote == Some(r) && seen.served == Some(r.body)
    requires At(local, n) == if seen.local.Some? then Some(Digest(seen.local.value)) else None
    ensures var a := RowAction(r, local);
            SlotFold(slot, seen, if a.Some? then [a.value] else [])
            == AfterRow(slot, seen.local, Window(Some(r), true, false), n)
  {
  }
}
