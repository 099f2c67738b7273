/** Conflict resolution: keep the local copy, the remote copy, or both, one call at a time. */
module Resolve {
  import opened Basics
  import opened FileNames
  import opened Repo
  import opened FileService
  import opened Reconcile
  import opened ReconcileTable
  import opened SyncTheorems

  /** A client together with the server it resolves against. */
  datatype Site = Site(client: Client, tables: Tables)

  function WithoutConflict(conflicts: seq<Conflict>, n: string): seq<Conflict> {
    if conflicts == [] then []
    else (if conflicts[0].name == n then [] else [conflicts[0]]) + WithoutConflict(conflicts[1..], n)
  }

  lemma {:induction false} WithoutConflictKeeps(conflicts: seq<Conflict>, n: string)
    ensures forall k :: k in WithoutConflict(conflicts, n) <==> k in conflicts && k.name != n
    ensures UniqueConflicts(conflicts) ==> UniqueConflicts(WithoutConflict(conflicts, n))
  {
    if conflicts != [] {
      var rest := conflicts[1..];
      WithoutConflictKeeps(rest, n);
      assert forall k :: k in conflicts <==> k == conflicts[0] || k in rest;
      if UniqueConflicts(conflicts) && conflicts[0].name != n {
        var out := WithoutConflict(conflicts, n);
        assert out == [conflicts[0]] + WithoutConflict(rest, n);
        forall k | k in WithoutConflict(rest, n)
          ensures k.name != conflicts[0].name
        {
        }
      }
    }
  }

  lemma ConflictLeaves(conflicts: seq<Conflict>, n: string)
    ensures ConflictNames(WithoutConflict(conflicts, n)) == ConflictNames(conflicts) - {n}
  {
    WithoutConflictKeeps(conflicts, n);
    forall k | k in conflicts && k.name != n
      ensures k.name in ConflictNames(WithoutConflict(conflicts, n))
    {
      assert k in WithoutConflict(conflicts, n);
    }
  }

  // ---- Keep local -------------------------------------------------------------------------

  /** Upload the file on disk under the conflict's name and settle the conflict with it. */
  function UploadMine(x: Site, k: Conflict): Site
    requires k.name in x.client.folder
  {
    var c := x.client;
    match CreateFile(x.tables, c.owner, k.name, c.folder[k.name])
    case Created(t, row) =>
      Site(c.(entries := c.entries[k.name := EntryFor(c.folder[k.name], row.id)],
              conflicts := WithoutConflict(c.conflicts, k.name)), t)
    case InvalidFilename => x
    case NamesExhausted => x
  }

  /** Delete the remote row, best effort, then upload the file on disk under the same name. The
      web version looks for the file first; the desktop version only when it uploads. */
  function KeepLocal(x: Site, k: Conflict, budget: nat, desktop: bool): Site {
    var c := x.client;
    if k.name !in c.folder && !desktop then x
    else
      var deleted := x.(tables := Bury(x.tables, c.owner, k.remoteId));
      if k.name !in c.folder || budget == 0 then deleted else UploadMine(deleted, k)
  }

  /** The conflict is still about the row the name has, or the name is free by now. */
  predicate StillCurrent(s: Tables, owner: nat, k: Conflict) {
    var r := FindName(s.files, owner, k.name);
    r.None? || r.value.id == k.remoteId
  }

  lemma BuryKnown(s: Tables, owner: nat, k: Conflict, m: string)
    requires Valid(s) && KnownRow(s, owner, k.name, k.remoteId)
    ensures var t := Bury(s, owner, k.remoteId);
            && Valid(t)
            && (m != k.name ==> FindName(t.files, owner, m) == FindName(s.files, owner, m))
            && FindName(t.files, owner, k.name)
               == (if StillCurrent(s, owner, k) then None else FindName(s.files, owner, k.name))
  {
    BuryValid(s, owner, k.remoteId);
    var found := FindId(s.files, owner, k.remoteId);
    if found.Some? {
      assert found.value.name == k.name;
      FindNameUnique(s.files, found.value);
      FindNameWithout(s.files, found.value, owner, m);
      FindNameWithout(s.files, found.value, owner, k.name);
    } else {
      assert FindName(s.files, owner, k.name).Some? ==> FindName(s.files, owner, k.name).value.id != k.remoteId;
    }
  }

  /** Keeping the local copy ends with both sides holding it under its own name, tracked, if
      and only if the conflict is still current; a stale one is stored under a numbered name
      that the entry then wrongly stands for. */
  lemma KeepLocalIff(x: Site, k: Conflict, budget: nat, desktop: bool)
    requires ServerOk(x.tables) && ClientOk(x.client, x.tables)
    requires KnownRow(x.tables, x.client.owner, k.name, k.remoteId)
    requires k.name in x.client.folder && budget > 0
    requires CreateFile(Bury(x.tables, x.client.owner, k.remoteId), x.client.owner, k.name,
                        x.client.folder[k.name]).Created?
    ensures var y, owner := KeepLocal(x, k, budget, desktop), x.client.owner;
            && k.name in y.client.entries
            && ConflictNames(y.client.conflicts) == ConflictNames(x.client.conflicts) - {k.name}
            && (StillCurrent(x.tables, owner, k)
                <==> EntryLive(y.tables.files, owner, k.name, y.client.entries[k.name]))
            && (StillCurrent(x.tables, owner, k) ==>
                  FindName(y.tables.files, owner, k.name).value.body == y.client.folder[k.name])
            && (!StillCurrent(x.tables, owner, k) ==>
                  FindName(y.tables.files, owner, k.name) == FindName(x.tables.files, owner, k.name))
  {
    var owner, body := x.client.owner, x.client.folder[k.name];
    ConflictLeaves(x.client.conflicts, k.name);
    BuryKnown(x.tables, owner, k, k.name);
    CreatedFor(Bury(x.tables, owner, k.remoteId), owner, k.name, body);
  }

  /** An upload gets its own name exactly when that is free; a taken name keeps its row. */
  lemma CreatedFor(t: Tables, owner: nat, n: string, body: Content)
    requires Valid(t) && CreateFile(t, owner, n, body).Created? && PlainName(n)
    ensures var c := CreateFile(t, owner, n, body);
            && c.row.body == body && c.row.hash == Digest(body)
            && FindName(c.tables.files, owner, n)
               == (if FindName(t.files, owner, n).None? then Some(c.row) else FindName(t.files, owner, n))
            && (FindName(t.files, owner, n).Some? ==> FindName(t.files, owner, n).value.id < c.row.id)
  {
    if FindName(t.files, owner, n).None? {
      CreateEntry(t, owner, n, body, n);
    } else {
      CreatePicksLeastFree(t, owner, n, body);
      FindNameAppend(t.files, CreateFile(t, owner, n, body).row, owner, n);
    }
  }

  // ---- Keep remote ------------------------------------------------------------------------

  function KeepRemote(x: Site, k: Conflict, budget: nat): Site {
    var c := x.client;
    match FindId(x.tables.files, c.owner, k.remoteId)
    case None => x
    case Some(row) =>
      if budget == 0 then x
      else x.(client := c.(folder := c.folder[k.name := row.body],
                           entries := c.entries[k.name := EntryFor(row.body, k.remoteId)],
                           conflicts := WithoutConflict(c.conflicts, k.name)))
  }

  lemma KnownLive(s: Tables, owner: nat, n: string, id: nat)
    requires Valid(s) && KnownRow(s, owner, n, id) && FindId(s.files, owner, id).Some?
    ensures FindName(s.files, owner, n) == FindId(s.files, owner, id)
  {
  }

  /** Keeping the remote copy gets through exactly when the row is live and the download is
      answered. Then both sides hold it, tracked, and the name's conflict alone is settled;
      otherwise nothing changes. */
  lemma KeepRemoteAgrees(x: Site, k: Conflict, budget: nat)
    requires Valid(x.tables) && KnownRow(x.tables, x.client.owner, k.name, k.remoteId)
    requires k.name in ConflictNames(x.client.conflicts)
    ensures var y, row := KeepRemote(x, k, budget), FindId(x.tables.files, x.client.owner, k.remoteId);
            && y.tables == x.tables && y.client.owner == x.client.owner
            && (k.name !in ConflictNames(y.client.conflicts) <==> row.Some? && budget > 0)
            && (if row.Some? && budget > 0 then
                  && Agrees(y, k.name) && y.client.folder[k.name] == row.value.body
                  && y.client.folder == x.client.folder[k.name := row.value.body]
                  && ConflictNames(y.client.conflicts) == ConflictNames(x.client.conflicts) - {k.name}
                else y == x)
  {
    ConflictLeaves(x.client.conflicts, k.name);
    if FindId(x.tables.files, x.client.owner, k.remoteId).Some? {
      KnownLive(x.tables, x.client.owner, k.name, k.remoteId);
    }
  }

  // ---- Keep both --------------------------------------------------------------------------

  /** What the failure path does: remove the conflict copy, best effort. */
  function DropCopy(x: Site, copy: string): Site {
    x.(client := x.client.(folder := x.client.folder - {copy}))
  }

  function WriteFile(x: Site, n: string, content: Content): Site {
    x.(client := x.client.(folder := x.client.folder[n := content]))
  }

  function SetEntry(x: Site, n: string, e: Entry): Site {
    x.(client := x.client.(entries := x.client.entries[n := e]))
  }

  /** The states after the copy reached the server as `row`; `calls` is what the budget allows. */
  function AfterUpload(sent: Site, k: Conflict, copy: string, edit: Content, row: Row, calls: nat,
                       desktop: bool): seq<Site> {
    var uploaded := if desktop then SetEntry(sent, copy, EntryFor(edit, row.id)) else sent;
    match FindId(sent.tables.files, sent.client.owner, k.remoteId)
    case None => [uploaded, DropCopy(uploaded, copy)]
    case Some(remote) =>
      if calls == 0 then [uploaded, DropCopy(uploaded, copy)]
      else [uploaded, WriteFile(uploaded, k.name, remote.body), Finish(uploaded, k, copy, edit, row, remote)]
  }

  function Finish(uploaded: Site, k: Conflict, copy: string, edit: Content, row: Row, remote: Row): Site {
    var c := uploaded.client;
    uploaded.(client := Client(c.owner, c.folder[k.name := remote.body],
                               c.entries[copy := EntryFor(edit, row.id)][k.name := EntryFor(remote.body, k.remoteId)],
                               c.cursor, WithoutConflict(c.conflicts, k.name)))
  }

  /** The copy can be made: the file is there and, for the desktop version, whose copyItem does
      not overwrite, no file has the copy's name. */
  predicate Copyable(x: Site, k: Conflict, copy: string, desktop: bool) {
    k.name in x.client.folder && !(desktop && copy in x.client.folder)
  }

  /** All the states the call goes through, the last being where it ends. The desktop version
      sets the copy's entry as soon as it is uploaded, the web version at the end. */
  function KeepBoth(x: Site, k: Conflict, date: string, budget: nat, desktop: bool): seq<Site> {
    var owner, copy := x.client.owner, ConflictCopyName(k.name, date);
    if !Copyable(x, k, copy, desktop) then [x, DropCopy(x, copy)]
    else
      var edit := x.client.folder[k.name];
      var copied := WriteFile(x, copy, edit);
      match CreateFile(x.tables, owner, copy, edit)
      case InvalidFilename => [x, copied, DropCopy(copied, copy)]
      case NamesExhausted => [x, copied, DropCopy(copied, copy)]
      case Created(t, row) =>
        if budget == 0 then [x, copied, DropCopy(copied, copy)]
        else [x, copied] + AfterUpload(copied.(tables := t), k, copy, edit, row, budget - 1, desktop)
  }

  /** The edit's bytes are on disk under its name, or in a row of the owner's, which has the
      copy's name if that was free. */
  ghost predicate EditSafe(x: Site, y: Site, n: string, copy: string, edit: Content) {
    || (n in y.client.folder && y.client.folder[n] == edit)
    || (exists r :: r in y.tables.files && r.owner == x.client.owner && r.body == edit
                    && (FindName(x.tables.files, x.client.owner, copy).None? ==> r.name == copy))
  }

  /** The remote row is exactly as it was before. */
  predicate RemoteKept(x: Site, y: Site, id: nat) {
    FindId(y.tables.files, x.client.owner, id) == FindId(x.tables.files, x.client.owner, id)
  }

  /** What keep-both maintains from state to state. */
  ghost predicate Conserved(x: Site, y: Site, k: Conflict, copy: string)
    requires k.name in x.client.folder
  {
    && y.client.owner == x.client.owner
    && EditSafe(x, y, k.name, copy, x.client.folder[k.name]) && RemoteKept(x, y, k.remoteId)
  }

  /** The copy's row: under the copy's name if that is free, else under a numbered one. */
  lemma CopyRow(x: Site, k: Conflict, copy: string)
    requires Valid(x.tables) && k.name in x.client.folder && PlainName(copy)
    requires KnownRow(x.tables, x.client.owner, k.name, k.remoteId)
    requires CreateFile(x.tables, x.client.owner, copy, x.client.folder[k.name]).Created?
    ensures var owner, edit := x.client.owner, x.client.folder[k.name];
            var was, c := FindName(x.tables.files, owner, copy), CreateFile(x.tables, owner, copy, edit);
            && c.row in c.tables.files && c.row.owner == owner && c.row.body == edit && c.row.id == x.tables.lastId + 1
            && (was.None? <==> c.row.name == copy)
            && FindName(c.tables.files, owner, copy) == (if was.None? then Some(c.row) else was)
            && FindId(c.tables.files, owner, k.remoteId) == FindId(x.tables.files, owner, k.remoteId)
            && Valid(c.tables)
  {
    var owner, edit := x.client.owner, x.client.folder[k.name];
    var c := CreateFile(x.tables, owner, copy, edit);
    CreatePicksLeastFree(x.tables, owner, copy, edit);
    FindNameAppend(x.tables.files, c.row, owner, copy);
    FindIdInsert(x.tables, owner, c.row.name, edit, k.remoteId);
    if FindName(x.tables.files, owner, copy).None? {
      CreateFreeName(x.tables, owner, copy, edit);
    }
  }

  lemma KeepBothUpload(x: Site, k: Conflict, copy: string)
    requires Valid(x.tables) && k.name in x.client.folder && PlainName(copy)
    requires FindName(x.tables.files, x.client.owner, copy).None?
        && KnownRow(x.tables, x.client.owner, k.name, k.remoteId)
    ensures var owner, edit := x.client.owner, x.client.folder[k.name];
            var c := CreateFile(x.tables, owner, copy, edit);
            && c.Created? && FindName(c.tables.files, owner, copy) == Some(c.row) && c.row.body == edit
            && FindId(c.tables.files, owner, k.remoteId) == FindId(x.tables.files, owner, k.remoteId)
            && Valid(c.tables) && c.tables == Insert(x.tables, owner, copy, edit)
  {
    CreateEntry(x.tables, x.client.owner, copy, x.client.folder[k.name], copy);
    FindIdInsert(x.tables, x.client.owner, copy, x.client.folder[k.name], k.remoteId);
  }

  /** Keep both loses neither side of the conflict: in every state it goes through, on success
      and on failure of any call, the edit's bytes are safe and the remote row is as it was. */
  lemma KeepBothConserves(x: Site, k: Conflict, date: string, budget: nat, desktop: bool)
    requires Valid(x.tables) && k.name in x.client.folder && PlainName(k.name)
    requires KnownRow(x.tables, x.client.owner, k.name, k.remoteId)
    requires '.' !in date && '/' !in date
    ensures forall y :: y in KeepBoth(x, k, date, budget, desktop) ==>
              Conserved(x, y, k, ConflictCopyName(k.name, date))
  {
    var copy, edit := ConflictCopyName(k.name, date), x.client.folder[k.name];
    var c := CreateFile(x.tables, x.client.owner, copy, edit);
    ConflictCopyInvertible(k.name, date);
    ConflictCopyPlain(k.name, date);
    forall y | y in KeepBoth(x, k, date, budget, desktop)
      ensures Conserved(x, y, k, copy)
    {
      TraceStates(x, k, date, budget, desktop, c, y);
      if c.Created? {
        CopyRow(x, k, copy);
      }
    }
  }

  /** Before the upload the server is as it was and the file is on disk; after it, the copy is
      on the server. */
  lemma TraceStates(x: Site, k: Conflict, date: string, budget: nat, desktop: bool, c: CreateResult, y: Site)
    requires k.name in x.client.folder && ConflictCopyName(k.name, date) != k.name
    requires c == CreateFile(x.tables, x.client.owner, ConflictCopyName(k.name, date), x.client.folder[k.name])
    requires y in KeepBoth(x, k, date, budget, desktop)
    ensures y.client.owner == x.client.owner
    ensures || (y.tables == x.tables && k.name in y.client.folder && y.client.folder[k.name] == x.client.folder[k.name])
            || (c.Created? && y.tables == c.tables)
  {
    var copied := WriteFile(x, ConflictCopyName(k.name, date), x.client.folder[k.name]);
    var early := TraceEarly(x, k, date, budget, desktop, y);
    if !early {
      AfterUploadTables(copied.(tables := c.tables), k, ConflictCopyName(k.name, date), x.client.folder[k.name], c.row,
                        budget - 1, desktop);
    }
  }

  /** The states before the upload and of the failures up to it; the others come after it. */
  lemma TraceEarly(x: Site, k: Conflict, date: string, budget: nat, desktop: bool, y: Site) returns (early: bool)
    requires y in KeepBoth(x, k, date, budget, desktop)
    ensures var copy := ConflictCopyName(k.name, date);
            if early then
              || y == x || y == DropCopy(x, copy)
              || (k.name in x.client.folder
                  && (var copied := WriteFile(x, copy, x.client.folder[k.name]);
                      y == copied || y == DropCopy(copied, copy)))
            else
              && Copyable(x, k, copy, desktop) && budget > 0
              && (var edit := x.client.folder[k.name];
                  var c := CreateFile(x.tables, x.client.owner, copy, edit);
                  && c.Created?
                  && (var sent := WriteFile(x, copy, edit).(tables := c.tables);
                      y in AfterUpload(sent, k, copy, edit, c.row, budget - 1, desktop)))
  {
    var copy := ConflictCopyName(k.name, date);
    early := true;
    if Copyable(x, k, copy, desktop) && budget > 0 {
      var edit := x.client.folder[k.name];
      var copied, c := WriteFile(x, copy, edit), CreateFile(x.tables, x.client.owner, copy, edit);
      if c.Created? {
        var rest := AfterUpload(copied.(tables := c.tables), k, copy, edit, c.row, budget - 1, desktop);
        assert y in [x, copied] + rest;
        early := y == x || y == copied;
      }
    }
  }

  lemma AfterUploadTables(sent: Site, k: Conflict, copy: string, edit: Content, row: Row, calls: nat, desktop: bool)
    ensures forall y :: y in AfterUpload(sent, k, copy, edit, row, calls, desktop) ==>
              y.tables == sent.tables && y.client.owner == sent.client.owner
  {
  }

  // ---- The other files --------------------------------------------------------------------

  /** Every file but the conflicting one is still on disk as it was. */
  ghost predicate OthersOnDisk(x: Site, y: Site, n: string) {
    forall m :: m in x.client.folder && m != n ==> At(y.client.folder, m) == At(x.client.folder, m)
  }

  /** Keep both touches the conflicting file and the copy's name only. */
  lemma KeepBothTouchesTwo(x: Site, k: Conflict, date: string, budget: nat, desktop: bool, y: Site, m: string)
    requires y in KeepBoth(x, k, date, budget, desktop) && m != k.name && m != ConflictCopyName(k.name, date)
    ensures At(y.client.folder, m) == At(x.client.folder, m)
  {
    var copy := ConflictCopyName(k.name, date);
    var early := TraceEarly(x, k, date, budget, desktop, y);
    if !early {
      var edit := x.client.folder[k.name];
      var c := CreateFile(x.tables, x.client.owner, copy, edit);
      var sent := WriteFile(x, copy, edit).(tables := c.tables);
      AfterUploadTouchesTwo(sent, k, copy, edit, c.row, budget - 1, desktop, m);
    }
  }

  lemma AfterUploadTouchesTwo(sent: Site, k: Conflict, copy: string, edit: Content, row: Row, calls: nat, desktop: bool,
                              m: string)
    requires m != k.name && m != copy
    ensures forall y :: y in AfterUpload(sent, k, copy, edit, row, calls, desktop) ==>
              At(y.client.folder, m) == At(sent.client.folder, m)
  {
  }

  /** A file that already has the copy's name is spared only by the web version, if it holds
      the same bytes and nothing fails: otherwise it is overwritten, or removed as the copy,
      even when there was nothing to copy. */
  predicate CopySpared(x: Site, k: Conflict, copy: string, budget: nat, desktop: bool) {
    || copy !in x.client.folder
    || (!desktop && k.name in x.client.folder && x.client.folder[copy] == x.client.folder[k.name]
        && budget >= 2 && FindId(x.tables.files, x.client.owner, k.remoteId).Some?
        && CreateFile(x.tables, x.client.owner, copy, x.client.folder[k.name]).Created?)
  }

  /** So the other files survive keep-both, in all states it goes through, exactly then. */
  lemma OthersSurviveIff(x: Site, k: Conflict, date: string, budget: nat, desktop: bool)
    requires Valid(x.tables) && PlainName(k.name)
    requires KnownRow(x.tables, x.client.owner, k.name, k.remoteId)
    requires '.' !in date && '/' !in date
    ensures (forall y :: y in KeepBoth(x, k, date, budget, desktop) ==> OthersOnDisk(x, y, k.name))
            <==> CopySpared(x, k, ConflictCopyName(k.name, date), budget, desktop)
  {
    var copy := ConflictCopyName(k.name, date);
    ConflictCopyInvertible(k.name, date);
    ConflictCopyPlain(k.name, date);
    if CopySpared(x, k, copy, budget, desktop) {
      forall y | y in KeepBoth(x, k, date, budget, desktop)
        ensures OthersOnDisk(x, y, k.name)
      {
        forall m | m in x.client.folder && m != k.name
          ensures At(y.client.folder, m) == At(x.client.folder, m)
        {
          if m == copy {
            assert k.name in x.client.folder && !desktop;
            SameBytesStay(x, k, date, budget, y);
          } else {
            KeepBothTouchesTwo(x, k, date, budget, desktop, y, m);
          }
        }
      }
    } else {
      var y := CopyLost(x, k, date, budget, desktop);
      assert At(y.client.folder, copy) != At(x.client.folder, copy);
    }
  }

  lemma SameBytesStay(x: Site, k: Conflict, date: string, budget: nat, y: Site)
    requires Valid(x.tables) && k.name in x.client.folder && KnownRow(x.tables, x.client.owner, k.name, k.remoteId)
    requires var copy := ConflictCopyName(k.name, date);
             copy != k.name && PlainName(copy) && copy in x.client.folder && CopySpared(x, k, copy, budget, false)
    requires y in KeepBoth(x, k, date, budget, false)
    ensures At(y.client.folder, ConflictCopyName(k.name, date)) == At(x.client.folder, ConflictCopyName(k.name, date))
  {
    var copy, edit := ConflictCopyName(k.name, date), x.client.folder[k.name];
    var copied, c := WriteFile(x, copy, edit), CreateFile(x.tables, x.client.owner, copy, edit);
    CopyRow(x, k, copy);
    var rest := AfterUpload(copied.(tables := c.tables), k, copy, edit, c.row, budget - 1, false);
    AfterUploadKeepsCopy(copied.(tables := c.tables), k, copy, edit, c.row, budget - 1);
    assert y in [x, copied] + rest;
    assert y in rest || y == x || y == copied;
  }

  lemma AfterUploadKeepsCopy(sent: Site, k: Conflict, copy: string, edit: Content, row: Row, calls: nat)
    requires copy != k.name && At(sent.client.folder, copy) == Some(edit)
    requires calls > 0 && FindId(sent.tables.files, sent.client.owner, k.remoteId).Some?
    ensures forall y :: y in AfterUpload(sent, k, copy, edit, row, calls, false) ==>
              At(y.client.folder, copy) == Some(edit)
  {
  }

  /** The state that has lost the file. */
  lemma CopyLost(x: Site, k: Conflict, date: string, budget: nat, desktop: bool) returns (y: Site)
    requires Valid(x.tables) && KnownRow(x.tables, x.client.owner, k.name, k.remoteId)
    requires var copy := ConflictCopyName(k.name, date);
             copy != k.name && PlainName(copy) && !CopySpared(x, k, copy, budget, desktop)
    ensures y in KeepBoth(x, k, date, budget, desktop)
    ensures var copy := ConflictCopyName(k.name, date); At(y.client.folder, copy) != At(x.client.folder, copy)
  {
    var copy, trace := ConflictCopyName(k.name, date), KeepBoth(x, k, date, budget, desktop);
    if k.name !in x.client.folder {
      return trace[1];
    }
    var edit := x.client.folder[k.name];
    if !desktop && x.client.folder[copy] != edit {
      y := WriteFile(x, copy, edit);
      assert trace[1] == y;
    } else {
      y := trace[|trace| - 1];
      var c := CreateFile(x.tables, x.client.owner, copy, edit);
      if !desktop && c.Created? && budget > 0 {
        CopyRow(x, k, copy);
        TraceEnds(x, k, date, budget, desktop);
      }
    }
  }

  /** When it gets through, both sides agree on both names, and both are tracked. */
  lemma KeepBothAgrees(x: Site, k: Conflict, date: string, budget: nat, desktop: bool)
    requires Valid(x.tables) && k.name in x.client.folder && PlainName(k.name)
    requires KnownRow(x.tables, x.client.owner, k.name, k.remoteId)
    requires '.' !in date && '/' !in date
    requires FindName(x.tables.files, x.client.owner, ConflictCopyName(k.name, date)).None?
    requires budget >= 2 && FindId(x.tables.files, x.client.owner, k.remoteId).Some?
    requires Copyable(x, k, ConflictCopyName(k.name, date), desktop)
    ensures var trace, copy := KeepBoth(x, k, date, budget, desktop), ConflictCopyName(k.name, date);
            var z, owner := trace[|trace| - 1], x.client.owner;
            && Agrees(z, k.name) && Agrees(z, copy)
            && z.client.folder[copy] == x.client.folder[k.name]
            && FindName(z.tables.files, owner, k.name) == FindId(x.tables.files, owner, k.remoteId)
            && ConflictNames(z.client.conflicts) == ConflictNames(x.client.conflicts) - {k.name}
  {
    ConflictCopyInvertible(k.name, date);
    ConflictCopyPlain(k.name, date);
    ConflictLeaves(x.client.conflicts, k.name);
    CopyAgrees(x, k, ConflictCopyName(k.name, date), budget - 1, desktop);
    TraceEnds(x, k, date, budget, desktop);
  }

  /** The copy gets an entry: as soon as it is uploaded on the desktop, at the end on the web. */
  predicate CopyRecorded(x: Site, k: Conflict, copy: string, budget: nat, desktop: bool) {
    && Copyable(x, k, copy, desktop) && budget > 0
    && CreateFile(x.tables, x.client.owner, copy, x.client.folder[k.name]).Created?
    && (desktop || (budget >= 2 && FindId(x.tables.files, x.client.owner, k.remoteId).Some?))
  }

  lemma CopyRecordedAs(x: Site, k: Conflict, date: string, budget: nat, desktop: bool)
    requires Valid(x.tables) && KnownRow(x.tables, x.client.owner, k.name, k.remoteId)
    requires var copy := ConflictCopyName(k.name, date);
             CopyRecorded(x, k, copy, budget, desktop) && copy != k.name && PlainName(copy)
    ensures var trace, copy, edit := KeepBoth(x, k, date, budget, desktop), ConflictCopyName(k.name, date),
        x.client.folder[k.name];
            var z, c := trace[|trace| - 1], CreateFile(x.tables, x.client.owner, copy, edit);
            && z.tables == c.tables && z.client.owner == x.client.owner
            && copy in z.client.entries && z.client.entries[copy] == EntryFor(edit, c.row.id)
  {
    var copy, edit := ConflictCopyName(k.name, date), x.client.folder[k.name];
    var c := CreateFile(x.tables, x.client.owner, copy, edit);
    CopyRow(x, k, copy);
    TraceEnds(x, k, date, budget, desktop);
    RecordedAfterUpload(WriteFile(x, copy, edit).(tables := c.tables), k, copy, edit, c.row, budget - 1, desktop);
  }

  lemma RecordedAfterUpload(sent: Site, k: Conflict, copy: string, edit: Content, row: Row, calls: nat, desktop: bool)
    requires copy != k.name
    requires desktop || (calls > 0 && FindId(sent.tables.files, sent.client.owner, k.remoteId).Some?)
    ensures var rest := AfterUpload(sent, k, copy, edit, row, calls, desktop);
            var z := rest[|rest| - 1];
            && z.tables == sent.tables && z.client.owner == sent.client.owner
            && copy in z.client.entries && z.client.entries[copy] == EntryFor(edit, row.id)
  {
  }

  /** The copy's entry describes the row of that name exactly when the name was free on the
      server; otherwise the copy was stored under a numbered name. */
  lemma CopyEntryIff(x: Site, k: Conflict, date: string, budget: nat, desktop: bool)
    requires Valid(x.tables) && PlainName(k.name) && KnownRow(x.tables, x.client.owner, k.name, k.remoteId)
    requires '.' !in date && '/' !in date
    requires CopyRecorded(x, k, ConflictCopyName(k.name, date), budget, desktop)
    ensures var trace, copy := KeepBoth(x, k, date, budget, desktop), ConflictCopyName(k.name, date);
            var z, owner := trace[|trace| - 1], x.client.owner;
            && copy in z.client.entries
            && (EntryLive(z.tables.files, owner, copy, z.client.entries[copy])
                <==> FindName(x.tables.files, owner, copy).None?)
  {
    var copy := ConflictCopyName(k.name, date);
    ConflictCopyInvertible(k.name, date);
    ConflictCopyPlain(k.name, date);
    CopyRecordedAs(x, k, date, budget, desktop);
    CopyRow(x, k, copy);
  }

  /** The trace ends as its part after the upload does. */
  lemma TraceEnds(x: Site, k: Conflict, date: string, budget: nat, desktop: bool)
    requires Copyable(x, k, ConflictCopyName(k.name, date), desktop) && budget > 0
    requires CreateFile(x.tables, x.client.owner, ConflictCopyName(k.name, date), x.client.folder[k.name]).Created?
    ensures var copy, edit := ConflictCopyName(k.name, date), x.client.folder[k.name];
            var c := CreateFile(x.tables, x.client.owner, copy, edit);
            var sent := WriteFile(x, copy, edit).(tables := c.tables);
            var rest := AfterUpload(sent, k, copy, edit, c.row, budget - 1, desktop);
            var trace := KeepBoth(x, k, date, budget, desktop);
            trace[|trace| - 1] == rest[|rest| - 1]
  {
  }

  lemma CopyAgrees(x: Site, k: Conflict, copy: string, calls: nat, desktop: bool)
    requires Valid(x.tables) && k.name in x.client.folder && PlainName(k.name) && PlainName(copy) && copy != k.name
    requires KnownRow(x.tables, x.client.owner, k.name, k.remoteId)
    requires FindName(x.tables.files, x.client.owner, copy).None?
    requires calls > 0 && FindId(x.tables.files, x.client.owner, k.remoteId).Some?
    ensures var edit, owner := x.client.folder[k.name], x.client.owner;
            var c := CreateFile(x.tables, owner, copy, edit);
            && c.Created?
            && (var sent := WriteFile(x, copy, edit).(tables := c.tables);
                var rest := AfterUpload(sent, k, copy, edit, c.row, calls, desktop);
                var z := rest[|rest| - 1];
                && z.client.owner == owner
                && Agrees(z, k.name) && Agrees(z, copy) && z.client.folder[copy] == edit
                && FindName(z.tables.files, owner, k.name) == FindId(x.tables.files, owner, k.remoteId)
                && z.client.conflicts == WithoutConflict(x.client.conflicts, k.name))
  {
    var owner, edit := x.client.owner, x.client.folder[k.name];
    KeepBothUpload(x, k, copy);
    KnownLive(x.tables, owner, k.name, k.remoteId);
    CreateEntry(x.tables, owner, copy, edit, k.name);
    var c := CreateFile(x.tables, owner, copy, edit);
    var sent := WriteFile(x, copy, edit).(tables := c.tables);
    FinishAgrees(sent, k, copy, edit, c.row, FindId(x.tables.files, owner, k.remoteId).value, calls, desktop);
  }

  lemma FinishAgrees(sent: Site, k: Conflict, copy: string, edit: Content, row: Row, remote: Row, calls: nat,
                     desktop: bool)
    requires calls > 0 && copy != k.name && At(sent.client.folder, copy) == Some(edit)
    requires FindName(sent.tables.files, sent.client.owner, copy) == Some(row) && row.body == edit
    requires FindName(sent.tables.files, sent.client.owner, k.name) == Some(remote)
    requires FindId(sent.tables.files, sent.client.owner, k.remoteId) == Some(remote)
    ensures var rest := AfterUpload(sent, k, copy, edit, row, calls, desktop);
            var z := rest[|rest| - 1];
            z.client.owner == sent.client.owner && z.tables == sent.tables
            && Agrees(z, k.name) && Agrees(z, copy) && z.client.folder[copy] == edit
            && z.client.conflicts == WithoutConflict(sent.client.conflicts, k.name)
  {
  }

  /** Both sides hold the same bytes under the name, and the entry describes that row. */
  ghost predicate Agrees(y: Site, n: string) {
    var r := FindName(y.tables.files, y.client.owner, n);
    && n in y.client.folder && r.Some? && y.client.folder[n] == r.value.body
    && n in y.client.entries && EntryLive(y.tables.files, y.client.owner, n, y.client.entries[n])
  }

  lemma {:induction false} FindIdAppend(files: seq<Row>, row: Row, owner: nat, id: nat)
    ensures FindId(files + [row], owner, id)
            == if FindId(files, owner, id).Some? then FindId(files, owner, id)
               else if row.owner == owner && row.id == id then Some(row) else None
  {
    if files == [] {
      assert files + [row] == [row];
      assert [row][1..] == [];
    } else {
      assert (files + [row])[1..] == files[1..] + [row];
      FindIdAppend(files[1..], row, owner, id);
    }
  }

  lemma FindIdInsert(s: Tables, owner: nat, n: string, body: Content, id: nat)
    ensures id <= s.lastId ==> FindId(Insert(s, owner, n, body).files, owner, id) == FindId(s.files, owner, id)
  {
    FindIdAppend(s.files, NewRow(s, owner, n, body), owner, id);
  }
}
