/** The pass refines a decision made name by name: what happens to a name depends only on what
    the pass knew about that name, never on other names or on the order of the visits. */
module ReconcileTable {
  import opened Basics
  import opened FileNames
  import opened Repo
  import opened FileService
  import opened SyncService
  import opened Reconcile

  /** Everything of the client that concerns one name. */
  datatype Slot = Slot(file: Option<Content>, entry: Option<Entry>, conflict: Option<Conflict>,
                       conflicted: bool, deleted: bool, downloaded: bool)

  /** Everything a pass learned about one name: scan, listing, and what a download would serve. */
  datatype Seen = Seen(local: Option<Content>, unreadable: bool, remote: Option<Row>, served: Option<Content>)

  function At<V>(m: map<string, V>, n: string): Option<V> {
    if n in m then Some(m[n]) else None
  }

  function SlotOf(p: Pass, n: string): Slot {
    Slot(At(p.folder, n), At(p.entries, n), ConflictOf(p.conflicts, n),
         n in p.conflicted, n in p.deleted, n in p.downloaded)
  }

  function SeenOf(env: Env, files: seq<Row>, n: string): Seen {
    Seen(At(env.scan, n), n in env.unreadable, At(env.remote, n),
         if n !in env.remote then None
         else match FindId(files, env.owner, env.remote[n].id)
              case None => None
              case Some(row) => Some(row.body))
  }

  // ---- Actions ----------------------------------------------------------------------------

  /** One action, on its own name. */
  function SlotStep(slot: Slot, seen: Seen, a: Action): Slot {
    match a
    case Download(_, _) =>
      if seen.remote.None? || seen.served.None? then slot
      else slot.(file := seen.served, entry := Some(EntryFor(seen.served.value, seen.remote.value.id)),
                 downloaded := true)
    case DeleteLocal(_, _) => slot.(file := None, entry := None, deleted := true)
    case Clash(name, _, details) =>
      if details.None? || seen.local.None? || (seen.remote.None? && slot.entry.None?) then slot
      else
        var id := if seen.remote.Some? then seen.remote.value.id else slot.entry.value.remoteId;
        slot.(conflict := Some(Conflict(name, id, |seen.local.value|, details.value)), conflicted := true)
  }

  function SlotFold(slot: Slot, seen: Seen, own: seq<Action>): Slot {
    if own == [] then slot
    else SlotStep(SlotFold(slot, seen, own[..|own| - 1]), seen, own[|own| - 1])
  }

  /** The sub-list of actions on one name. */
  function Own(actions: seq<Action>, n: string): seq<Action> {
    if actions == [] then []
    else Own(actions[..|actions| - 1], n) + if actions[|actions| - 1].name == n then [actions[|actions| - 1]] else []
  }

  lemma ActionOnSlot(env: Env, p: Pass, a: Action, n: string)
    requires !ApplyAction(env, p, a).aborted
    ensures !p.aborted
    ensures SlotOf(ApplyAction(env, p, a), n)
            == if a.name == n then SlotStep(SlotOf(p, n), SeenOf(env, p.tables.files, n), a) else SlotOf(p, n)
  {
    if a.Clash? && a.details.Some? && a.name in env.scan && ConflictId(env, p, a.name).Some? {
      var c := Conflict(a.name, ConflictId(env, p, a.name).value, |env.scan[a.name]|, a.details.value);
      UpsertLookup(p.conflicts, c, n);
    }
  }

  /** A completed action loop acts on each name as that name's own actions do. */
  lemma {:induction false} ActionsOnSlot(env: Env, p: Pass, actions: seq<Action>, n: string)
    requires !ApplyActions(env, p, actions).aborted
    ensures SlotOf(ApplyActions(env, p, actions), n)
            == SlotFold(SlotOf(p, n), SeenOf(env, p.tables.files, n), Own(actions, n))
  {
    if actions != [] {
      var front, last := actions[..|actions| - 1], actions[|actions| - 1];
      ApplyActionsKeepsTables(env, p, front);
      ActionOnSlot(env, ApplyActions(env, p, front), last, n);
      ActionsOnSlot(env, p, front, n);
      if last.name == n {
        assert Own(actions, n)[..|Own(actions, n)| - 1] == Own(front, n);
      } else {
        assert Own(actions, n) == Own(front, n);
      }
    }
  }

  // ---- Uploads and remote deletions -------------------------------------------------------

  /** What a pass does to the server for one name. */
  datatype Fate = Keep | Create | Replace | Drop

  /** The decision, after the actions. */
  function Decide(slot: Slot, seen: Seen): Fate {
    if seen.local.Some? then
      if slot.conflicted || slot.deleted then Keep
      else if slot.entry.Some? then
        if Matches(slot.entry.value, seen.local.value) then Keep else Replace
      else if seen.remote.None? then Create else Keep
    else if slot.entry.Some? && !seen.unreadable && !slot.conflicted && !slot.downloaded then Drop
    else Keep
  }

  /** The entry is about this row. */
  predicate Describes(e: Entry, r: Row) {
    e.remoteId == r.id && e.size == |r.body| && e.hash == Digest(r.body)
  }

  ghost predicate EntryLive(files: seq<Row>, owner: nat, n: string, e: Entry) {
    FindName(files, owner, n).Some? && Describes(e, FindName(files, owner, n).value)
  }

  ghost predicate AllLive(files: seq<Row>, owner: nat, entries: map<string, Entry>) {
    forall n :: n in entries ==> EntryLive(files, owner, n, entries[n])
  }

  ghost predicate BuriedName(deletions: seq<Tomb>, owner: nat, n: string, since: nat) {
    exists t :: t in deletions && t.row.owner == owner && t.row.name == n && t.version > since
  }

  ghost predicate EntryBuried(deletions: seq<Tomb>, owner: nat, n: string, e: Entry, since: nat) {
    exists t :: t in deletions && t.row.owner == owner && t.row.name == n && t.version > since && Describes(e, t.row)
  }

  // FindName under the two writes.

  lemma {:induction false} FindNameAppend(files: seq<Row>, row: Row, owner: nat, m: string)
    ensures FindName(files + [row], owner, m)
            == if FindName(files, owner, m).Some? then FindName(files, owner, m)
               else if row.owner == owner && row.name == m then Some(row) else None
  {
    if files == [] {
      assert files + [row] == [row];
      assert [row][1..] == [];
    } else {
      assert (files + [row])[1..] == files[1..] + [row];
      FindNameAppend(files[1..], row, owner, m);
    }
  }

  lemma FindNameUnique(files: seq<Row>, r: Row)
    requires UniqueNames(files) && r in files
    ensures FindName(files, r.owner, r.name) == Some(r)
  {
  }

  lemma FindIdUnique(files: seq<Row>, r: Row)
    requires UniqueIds(files) && r in files
    ensures FindId(files, r.owner, r.id) == Some(r)
  {
  }

  lemma FindNameWithout(files: seq<Row>, r: Row, owner: nat, m: string)
    requires UniqueNames(files) && UniqueIds(files) && r in files
    ensures FindName(Without(files, r.id), owner, m)
            == if r.owner == owner && r.name == m then None else FindName(files, owner, m)
  {
    WithoutMembers(files, r.id);
    var was, now := FindName(files, owner, m), FindName(Without(files, r.id), owner, m);
    if now.Some? {
      FindNameUnique(files, now.value);
    }
    if was.Some? {
      assert was.value == r || was.value in Without(files, r.id);
    }
  }

  /** Deleting the row an entry describes removes that name, buries it, and leaves every other
      name alone. */
  lemma BuryEntry(s: Tables, owner: nat, n: string, e: Entry, m: string, since: nat)
    requires Valid(s) && EntryLive(s.files, owner, n, e) && since <= s.lastVersion
    ensures var t := Bury(s, owner, e.remoteId);
            && Valid(t) && (Hashed(s.files) ==> Hashed(t.files)) && t.lastVersion == s.lastVersion + 1
               && t.lastId == s.lastId
            && FindName(t.files, owner, n).None?
            && (m != n ==> FindName(t.files, owner, m) == FindName(s.files, owner, m))
            && (m != n ==> (BuriedName(t.deletions, owner, m, since) <==> BuriedName(s.deletions, owner, m, since)))
            && EntryBuried(t.deletions, owner, n, e, since)
            && BuriedName(t.deletions, owner, n, since)
            && s.deletions <= t.deletions
  {
    var r := FindName(s.files, owner, n).value;
    BuryValid(s, owner, e.remoteId);
    FindIdUnique(s.files, r);
    FindNameWithout(s.files, r, owner, n);
    FindNameWithout(s.files, r, owner, m);
    var t, tomb := Bury(s, owner, e.remoteId), Tomb(r, s.lastVersion + 1);
    assert tomb in t.deletions;
    assert forall d :: d in t.deletions <==> d in s.deletions || d == tomb;
  }

  /** Uploading a free plain name gives it a new row and leaves every other name alone. */
  lemma CreateEntry(s: Tables, owner: nat, n: string, body: Content, m: string)
    requires Valid(s) && FindName(s.files, owner, n).None? && PlainName(n)
    ensures var c := CreateFile(s, owner, n, body);
            && c == Created(Insert(s, owner, n, body), NewRow(s, owner, n, body))
            && Valid(c.tables) && (Hashed(s.files) ==> Hashed(c.tables.files))
            && FindName(c.tables.files, owner, n) == Some(c.row)
            && (m != n ==> FindName(c.tables.files, owner, m) == FindName(s.files, owner, m))
            && c.tables.deletions == s.deletions
  {
    CreateFreeName(s, owner, n, body);
    InsertValid(s, owner, n, body);
    var row := NewRow(s, owner, n, body);
    FindNameAppend(s.files, row, owner, n);
    FindNameAppend(s.files, row, owner, m);
  }

  /** Every entry describes a row created under its own name, live or buried after `since`. */
  ghost predicate Tracked(s: Tables, owner: nat, since: nat, entries: map<string, Entry>) {
    forall n :: n in entries ==>
      EntryLive(s.files, owner, n, entries[n]) || EntryBuried(s.deletions, owner, n, entries[n], since)
  }

  /** The tables are in order and every entry's row is live. */
  ghost predicate Settled(env: Env, p: Pass) {
    Valid(p.tables) && Hashed(p.tables.files) && AllLive(p.tables.files, env.owner, p.entries)
  }

  /** `q` is as good as `p` and later, whether or not it aborted. */
  ghost predicate Sound(env: Env, p: Pass, q: Pass, since: nat) {
    && Valid(q.tables) && Hashed(q.tables.files)
    && p.tables.lastVersion <= q.tables.lastVersion && p.tables.lastId <= q.tables.lastId
    && p.tables.deletions <= q.tables.deletions
    && (!q.aborted ==> AllLive(q.tables.files, env.owner, q.entries))
    && Tracked(q.tables, env.owner, since, q.entries)
    && q.folder == p.folder && q.conflicts == p.conflicts
    && q.conflicted == p.conflicted && q.deleted == p.deleted && q.downloaded == p.downloaded
  }

  ghost predicate Untouched(env: Env, p: Pass, q: Pass, m: string, since: nat) {
    && SlotOf(q, m) == SlotOf(p, m)
    && FindName(q.tables.files, env.owner, m) == FindName(p.tables.files, env.owner, m)
    && (BuriedName(q.tables.deletions, env.owner, m, since) <==> BuriedName(p.tables.deletions, env.owner, m, since))
  }

  /** The name got a row of its own, made during the pass, holding what the scan saw. */
  ghost predicate Uploaded(env: Env, p: Pass, q: Pass, n: string)
    requires n in env.scan
  {
    var row := FindName(q.tables.files, env.owner, n);
    && row.Some?
    && row.value.body == env.scan[n]
    && row.value.id > p.tables.lastId && row.value.version > p.tables.lastVersion
    && SlotOf(q, n) == SlotOf(p, n).(entry := Some(EntryFor(env.scan[n], row.value.id)))
  }

  /** What `q` made of a name that `p` had decided the fate of. */
  ghost predicate Fulfilled(env: Env, p: Pass, q: Pass, n: string, fate: Fate, since: nat) {
    match fate
    case Keep => Untouched(env, p, q, n, since)
    case Create =>
      && n in env.scan && Uploaded(env, p, q, n)
      && (BuriedName(q.tables.deletions, env.owner, n, since) <==> BuriedName(p.tables.deletions, env.owner, n, since))
    case Replace =>
      && n in env.scan && Uploaded(env, p, q, n)
      && BuriedName(q.tables.deletions, env.owner, n, since)
    case Drop =>
      && FindName(q.tables.files, env.owner, n).None?
      && SlotOf(q, n) == SlotOf(p, n).(entry := None)
      && BuriedName(q.tables.deletions, env.owner, n, since)
  }

  /** A scanned name may be uploaded: it is plain, still on disk as scanned unless the server
      just deleted it, and free on the server unless the listing has it. */
  ghost predicate Uploadable(env: Env, p: Pass, n: string) {
    && n in env.scan && PlainName(n)
    && (n !in p.deleted ==> n in p.folder && p.folder[n] == env.scan[n])
    && (n !in env.remote ==> FindName(p.tables.files, env.owner, n).None?)
  }

  lemma LiveIsTracked(s: Tables, owner: nat, since: nat, entries: map<string, Entry>)
    requires AllLive(s.files, owner, entries)
    ensures Tracked(s, owner, since, entries)
  {
  }

  /** PutFile on a free name, every other entry being live. */
  lemma PutStep(env: Env, p: Pass, n: string, since: nat)
    requires !p.aborted && Valid(p.tables) && Hashed(p.tables.files)
    requires forall k :: k in p.entries && k != n ==> EntryLive(p.tables.files, env.owner, k, p.entries[k])
    requires Uploadable(env, p, n) && n !in p.deleted
    requires FindName(p.tables.files, env.owner, n).None?
    requires n in p.entries ==> EntryBuried(p.tables.deletions, env.owner, n, p.entries[n], since)
    ensures var q := PutFile(env, p, n);
            && Sound(env, p, q, since)
            && q.tables.deletions == p.tables.deletions
            && (!q.aborted ==> Uploaded(env, p, q, n))
  {
    CreateEntry(p.tables, env.owner, n, env.scan[n], n);
    if !PutFile(env, p, n).aborted {
      PutEntriesLive(env, p, n);
    }
  }

  lemma PutEntriesLive(env: Env, p: Pass, n: string)
    requires !p.aborted && Valid(p.tables)
    requires forall k :: k in p.entries && k != n ==> EntryLive(p.tables.files, env.owner, k, p.entries[k])
    requires Uploadable(env, p, n) && n !in p.deleted && FindName(p.tables.files, env.owner, n).None?
    requires !PutFile(env, p, n).aborted
    ensures var q := PutFile(env, p, n); AllLive(q.tables.files, env.owner, q.entries)
  {
    var q := PutFile(env, p, n);
    forall k | k in q.entries
      ensures EntryLive(q.tables.files, env.owner, k, q.entries[k])
    {
      CreateEntry(p.tables, env.owner, n, env.scan[n], k);
    }
  }

  lemma PutOthers(env: Env, p: Pass, n: string, m: string, since: nat)
    requires Valid(p.tables) && Uploadable(env, p, n) && n !in p.deleted && m != n
    requires FindName(p.tables.files, env.owner, n).None?
    ensures Untouched(env, p, PutFile(env, p, n), m, since)
  {
    CreateEntry(p.tables, env.owner, n, env.scan[n], m);
  }

  /** RemoteDelete of the row a live entry describes. */
  lemma DeleteStep(env: Env, p: Pass, n: string, since: nat)
    requires Settled(env, p) && n in p.entries && since <= p.tables.lastVersion
    ensures var q := RemoteDelete(env, p, n, p.entries[n].remoteId);
            && Valid(q.tables) && Hashed(q.tables.files)
            && q.tables.lastVersion == p.tables.lastVersion + 1 && q.tables.lastId == p.tables.lastId
            && p.tables.deletions <= q.tables.deletions
            && FindName(q.tables.files, env.owner, n).None?
            && BuriedName(q.tables.deletions, env.owner, n, since)
            && EntryBuried(q.tables.deletions, env.owner, n, p.entries[n], since)
            && (forall k :: k in p.entries && k != n ==> EntryLive(q.tables.files, env.owner, k, p.entries[k]))
  {
    var q := RemoteDelete(env, p, n, p.entries[n].remoteId);
    BuryEntry(p.tables, env.owner, n, p.entries[n], n, since);
    forall k | k in p.entries && k != n
      ensures EntryLive(q.tables.files, env.owner, k, p.entries[k])
    {
      BuryEntry(p.tables, env.owner, n, p.entries[n], k, since);
    }
  }

  lemma DeleteOthers(env: Env, p: Pass, n: string, m: string, since: nat)
    requires Settled(env, p) && n in p.entries && since <= p.tables.lastVersion && m != n
    ensures Untouched(env, p, RemoteDelete(env, p, n, p.entries[n].remoteId), m, since)
  {
    BuryEntry(p.tables, env.owner, n, p.entries[n], m, since);
  }

  lemma UploadStep(env: Env, p: Pass, n: string, since: nat)
    requires !p.aborted && Settled(env, p) && Uploadable(env, p, n) && since <= p.tables.lastVersion
    ensures var q := UploadName(env, p, n);
            && Sound(env, p, q, since)
            && (!q.aborted ==> Fulfilled(env, p, q, n, Decide(SlotOf(p, n), SeenOf(env, p.tables.files, n)), since))
  {
    LiveIsTracked(p.tables, env.owner, since, p.entries);
    match Decide(SlotOf(p, n), SeenOf(env, p.tables.files, n))
    case Keep =>
    case Create =>
      PutStep(env, p, n, since);
    case Replace =>
      DeleteStep(env, p, n, since);
      PutStep(env, RemoteDelete(env, p, n, p.entries[n].remoteId), n, since);
  }

  lemma UploadOthers(env: Env, p: Pass, n: string, m: string, since: nat)
    requires !p.aborted && Settled(env, p) && Uploadable(env, p, n) && since <= p.tables.lastVersion && m != n
    ensures Untouched(env, p, UploadName(env, p, n), m, since)
  {
    match Decide(SlotOf(p, n), SeenOf(env, p.tables.files, n))
    case Keep =>
    case Create =>
      PutOthers(env, p, n, m, since);
    case Replace =>
      DeleteStep(env, p, n, since);
      DeleteOthers(env, p, n, m, since);
      PutOthers(env, RemoteDelete(env, p, n, p.entries[n].remoteId), n, m, since);
  }
}
