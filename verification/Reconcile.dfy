/** One folder-sync pass: apply the server's actions, upload, then delete remotely. The pass is
    a fold over the actions and over the names in whatever order they are visited. */
module Reconcile {
  import opened Basics
  import opened Repo
  import opened FileService
  import opened SyncService

  /** What the client remembers of a synced file (SyncedFileEntry). */
  datatype Entry = Entry(remoteId: nat, size: nat, hash: Hash)

  datatype Conflict = Conflict(name: string, remoteId: nat, localSize: nat, remoteSize: nat)

  /** A deleteFile call, with the name it was made for. */
  datatype Removal = Removal(name: string, id: nat)

  /** What a pass learns before it changes anything: the scan of the folder, the names it could
      not read, and the listing of the server by name. */
  datatype Env = Env(owner: nat, scan: map<string, Content>, unreadable: set<string>, remote: map<string, Row>)

  /** The state a pass works on. `budget` is the number of calls that may still succeed; the
      call after it throws, `aborted` is set and nothing more happens. */
  datatype Pass = Pass(
    folder: map<string, Content>,
    entries: map<string, Entry>,
    conflicts: seq<Conflict>,
    tables: Tables,
    conflicted: set<string>,
    deleted: set<string>,
    downloaded: set<string>,
    removals: seq<Removal>,
    budget: nat,
    aborted: bool)

  /** The scanner skips dotfiles. */
  predicate Hidden(name: string) {
    name != "" && name[0] == '.'
  }

  function Scan(folder: map<string, Content>, unreadable: set<string>): map<string, Content> {
    map n | n in folder && !Hidden(n) && n !in unreadable :: folder[n]
  }

  function EntryFor(content: Content, id: nat): Entry {
    Entry(id, |content|, Digest(content))
  }

  function ConflictOf(conflicts: seq<Conflict>, name: string): Option<Conflict> {
    if conflicts == [] then None
    else if conflicts[0].name == name then Some(conflicts[0])
    else ConflictOf(conflicts[1..], name)
  }

  function ConflictNames(conflicts: seq<Conflict>): set<string> {
    set c | c in conflicts :: c.name
  }

  /** Replace the recorded conflict of that name, or append it. */
  function Upsert(conflicts: seq<Conflict>, c: Conflict): seq<Conflict> {
    if conflicts == [] then [c]
    else if conflicts[0].name == c.name then [c] + conflicts[1..]
    else [conflicts[0]] + Upsert(conflicts[1..], c)
  }

  function Abort(p: Pass): Pass {
    p.(aborted := true)
  }

  // ---- Server actions ---------------------------------------------------------------------

  function ApplyDownload(env: Env, p: Pass, name: string): Pass {
    if name !in env.remote then p
    else if p.budget == 0 then Abort(p)
    else
      var id := env.remote[name].id;
      match FindId(p.tables.files, env.owner, id)
      case None => Abort(p)
      case Some(row) =>
        p.(folder := p.folder[name := row.body],
           entries := p.entries[name := EntryFor(row.body, id)],
           downloaded := p.downloaded + {name},
           budget := p.budget - 1)
  }

  function ConflictId(env: Env, p: Pass, name: string): Option<nat> {
    if name in env.remote then Some(env.remote[name].id)
    else if name in p.entries then Some(p.entries[name].remoteId)
    else None
  }

  function ApplyClash(env: Env, p: Pass, name: string, details: Option<nat>): Pass {
    if details.None? || name !in env.scan || ConflictId(env, p, name).None? then p
    else
      var c := Conflict(name, ConflictId(env, p, name).value, |env.scan[name]|, details.value);
      p.(conflicts := Upsert(p.conflicts, c), conflicted := p.conflicted + {name})
  }

  function ApplyAction(env: Env, p: Pass, a: Action): Pass {
    if p.aborted then p
    else
      match a
      case Download(name, _) => ApplyDownload(env, p, name)
      case DeleteLocal(name, _) =>
        p.(folder := p.folder - {name}, entries := p.entries - {name}, deleted := p.deleted + {name})
      case Clash(name, _, details) => ApplyClash(env, p, name, details)
  }

  function ApplyActions(env: Env, p: Pass, actions: seq<Action>): Pass {
    if actions == [] then p
    else ApplyAction(env, ApplyActions(env, p, actions[..|actions| - 1]), actions[|actions| - 1])
  }

  // ---- Uploads ----------------------------------------------------------------------------

  function RemoteDelete(env: Env, p: Pass, name: string, id: nat): Pass {
    p.(tables := Bury(p.tables, env.owner, id), removals := p.removals + [Removal(name, id)])
  }

  /** Upload the file as it is on disk now, and remember it as the scan saw it. */
  function PutFile(env: Env, p: Pass, name: string): Pass
    requires name in env.scan
  {
    if name !in p.folder || p.budget == 0 then Abort(p)
    else
      match CreateFile(p.tables, env.owner, name, p.folder[name])
      case Created(tables, row) =>
        p.(tables := tables, entries := p.entries[name := EntryFor(env.scan[name], row.id)], budget := p.budget - 1)
      case InvalidFilename => Abort(p)
      case NamesExhausted => Abort(p)
  }

  predicate Matches(e: Entry, content: Content) {
    e.size == |content| && e.hash == Digest(content)
  }

  function UploadName(env: Env, p: Pass, name: string): Pass
    requires name in env.scan
  {
    if p.aborted || name in p.conflicted || name in p.deleted then p
    else if name in p.entries then
      if Matches(p.entries[name], env.scan[name]) then p
      else PutFile(env, RemoteDelete(env, p, name, p.entries[name].remoteId), name)
    else if name !in env.remote then PutFile(env, p, name)
    else p
  }

  function UploadAll(env: Env, p: Pass, order: seq<string>): Pass
    requires forall n :: n in order ==> n in env.scan
  {
    if order == [] then p
    else UploadName(env, UploadAll(env, p, order[..|order| - 1]), order[|order| - 1])
  }

  // ---- Remote deletions -------------------------------------------------------------------

  function RemovedLocally(env: Env, p: Pass): set<string> {
    set n | n in p.entries && n !in env.scan && n !in env.unreadable && n !in p.conflicted && n !in p.downloaded
  }

  function RemoveName(env: Env, p: Pass, name: string): Pass {
    if p.aborted || name !in p.entries then p
    else
      var q := RemoteDelete(env, p, name, p.entries[name].remoteId);
      q.(entries := q.entries - {name})
  }

  function RemoveAll(env: Env, p: Pass, order: seq<string>): Pass {
    if order == [] then p
    else RemoveName(env, RemoveAll(env, p, order[..|order| - 1]), order[|order| - 1])
  }

  ghost predicate Distinct(order: seq<string>) {
    forall i, j :: 0 <= i < j < |order| ==> order[i] != order[j]
  }

  /** The sequence visits every member of the set once. */
  ghost predicate Visits(order: seq<string>, names: set<string>) {
    (forall n :: n in order <==> n in names) && Distinct(order)
  }

  // ---- Orders and folds -------------------------------------------------------------------

  lemma {:induction false} ApplyActionsKeepsTables(env: Env, p: Pass, actions: seq<Action>)
    ensures var q := ApplyActions(env, p, actions);
            q.tables == p.tables && q.removals == p.removals && q.conflicted >= p.conflicted
    ensures !ApplyActions(env, p, actions).aborted ==> !p.aborted
  {
    if actions != [] {
      ApplyActionsKeepsTables(env, p, actions[..|actions| - 1]);
    }
  }

  lemma {:induction false} UpsertLookup(conflicts: seq<Conflict>, c: Conflict, n: string)
    ensures ConflictOf(Upsert(conflicts, c), n) == if n == c.name then Some(c) else ConflictOf(conflicts, n)
  {
    if conflicts != [] {
      var out, rest := Upsert(conflicts, c), conflicts[1..];
      if conflicts[0].name == c.name {
        assert out[1..] == rest;
      } else {
        UpsertLookup(rest, c, n);
        assert out[1..] == Upsert(rest, c);
      }
    }
  }

  lemma {:induction false} UpsertMembers(conflicts: seq<Conflict>, c: Conflict)
    ensures forall x :: x in Upsert(conflicts, c) ==> x == c || x in conflicts
    ensures ConflictNames(Upsert(conflicts, c)) == ConflictNames(conflicts) + {c.name}
  {
    var out := Upsert(conflicts, c);
    if conflicts == [] {
      assert out == [c];
    } else {
      var first, rest := conflicts[0], conflicts[1..];
      assert conflicts == [first] + rest;
      ConsNames(first, rest);
      if first.name == c.name {
        ConsNames(c, rest);
      } else {
        UpsertMembers(rest, c);
        ConsNames(first, Upsert(rest, c));
      }
    }
  }

  lemma ConsNames(c: Conflict, rest: seq<Conflict>)
    ensures ConflictNames([c] + rest) == {c.name} + ConflictNames(rest)
    ensures forall x :: x in [c] + rest <==> x == c || x in rest
  {
    assert forall x :: x in [c] + rest <==> x == c || x in rest;
  }

  /** At most one recorded conflict per name. */
  ghost predicate UniqueConflicts(conflicts: seq<Conflict>) {
    forall i, j :: 0 <= i < j < |conflicts| ==> conflicts[i].name != conflicts[j].name
  }

  lemma {:induction false} UpsertUnique(conflicts: seq<Conflict>, c: Conflict)
    requires UniqueConflicts(conflicts)
    ensures UniqueConflicts(Upsert(conflicts, c))
  {
    if conflicts != [] && conflicts[0].name != c.name {
      var rest := conflicts[1..];
      UpsertUnique(rest, c);
      UpsertMembers(rest, c);
      forall x | x in Upsert(rest, c)
        ensures x.name != conflicts[0].name
      {
        assert forall y :: y in rest ==> y.name != conflicts[0].name;
      }
    }
  }

  /** A conflict reported again takes the old one's place in the list; a new one comes last. */
  lemma {:induction false} UpsertInPlace(conflicts: seq<Conflict>, c: Conflict, i: nat)
    requires UniqueConflicts(conflicts) && i < |conflicts|
    ensures var out := Upsert(conflicts, c);
            && (c.name !in ConflictNames(conflicts) ==> out == conflicts + [c])
            && (c.name in ConflictNames(conflicts) ==> |out| == |conflicts|)
            && i < |out| && out[i] == if conflicts[i].name == c.name then c else conflicts[i]
  {
    var first, rest := conflicts[0], conflicts[1..];
    assert conflicts == [first] + rest;
    ConsNames(first, rest);
    if first.name != c.name && rest != [] {
      UpsertInPlace(rest, c, if i == 0 then 0 else i - 1);
    }
  }

  /** For any response of any server: a pass never drops a recorded conflict, keeps at most
      one per name, and blocks every name it has a conflict for. */
  lemma {:induction false} ConflictsKept(env: Env, p: Pass, actions: seq<Action>)
    requires UniqueConflicts(p.conflicts) && p.conflicted == ConflictNames(p.conflicts)
    ensures var q := ApplyActions(env, p, actions);
            UniqueConflicts(q.conflicts) && q.conflicted == ConflictNames(q.conflicts)
            && ConflictNames(p.conflicts) <= ConflictNames(q.conflicts)
  {
    if actions != [] {
      var front, last := actions[..|actions| - 1], actions[|actions| - 1];
      ConflictsKept(env, p, front);
      var q := ApplyActions(env, p, front);
      if !q.aborted && last.Clash? && ApplyClash(env, q, last.name, last.details) != q {
        var c := Conflict(last.name, ConflictId(env, q, last.name).value, |env.scan[last.name]|, last.details.value);
        UpsertUnique(q.conflicts, c);
        UpsertMembers(q.conflicts, c);
      }
    }
  }
}
