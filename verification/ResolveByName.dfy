/** What the three resolutions do to each name, in full: to its file, its entry, its conflict and
    its row, when they get through and when they do not. */
module ResolveByName {
  import opened Basics
  import opened FileNames
  import opened Repo
  import opened FileService
  import opened Reconcile
  import opened ReconcileTable
  import opened SyncTheorems
  import opened Resolve

  lemma {:induction false} WithoutConflictLookup(conflicts: seq<Conflict>, n: string, m: string)
    ensures ConflictOf(WithoutConflict(conflicts, n), m) == if m == n then None else ConflictOf(conflicts, m)
  {
    if conflicts != [] {
      var rest := WithoutConflict(conflicts[1..], n);
      WithoutConflictLookup(conflicts[1..], n, m);
      if conflicts[0].name != n {
        assert ([conflicts[0]] + rest)[1..] == rest;
      } else {
        assert [] + rest == rest;
      }
    }
  }

  /** File, entry and conflict of the name are as they were. */
  ghost predicate SameOnClient(x: Client, y: Client, m: string) {
    && At(y.folder, m) == At(x.folder, m) && At(y.entries, m) == At(x.entries, m)
    && ConflictOf(y.conflicts, m) == ConflictOf(x.conflicts, m)
  }

  ghost predicate SameSession(x: Client, y: Client) {
    y.owner == x.owner && y.cursor == x.cursor
  }

  // ---- Keep local -------------------------------------------------------------------------

  /** The remote row goes, unless the web version finds no file. */
  function RowsAtUpload(x: Site, k: Conflict, desktop: bool): Tables {
    if k.name in x.client.folder || desktop then Bury(x.tables, x.client.owner, k.remoteId) else x.tables
  }

  /** The file is there and its upload is answered with a row. */
  predicate MineStored(x: Site, k: Conflict, budget: nat, desktop: bool) {
    && k.name in x.client.folder && budget > 0
    && CreateFile(RowsAtUpload(x, k, desktop), x.client.owner, k.name, x.client.folder[k.name]).Created?
  }

  /** Keep-local leaves all files, the cursor and every other name's entry and conflict alone;
      unless the upload got through, it leaves the client as it was. */
  lemma KeepLocalDoes(x: Site, k: Conflict, budget: nat, desktop: bool, m: string)
    ensures var y, c := KeepLocal(x, k, budget, desktop), x.client;
            && SameSession(c, y.client) && y.client.folder == c.folder
            && (m != k.name ==> SameOnClient(c, y.client, m))
            && (if MineStored(x, k, budget, desktop) then
                  var row := CreateFile(RowsAtUpload(x, k, desktop), c.owner, k.name, c.folder[k.name]).row;
                  && At(y.client.entries, k.name)
                     == Some(Entry(row.id, |c.folder[k.name]|, Digest(c.folder[k.name])))
                  && ConflictOf(y.client.conflicts, k.name) == None
                else y.client == c && y.tables == RowsAtUpload(x, k, desktop))
  {
    WithoutConflictLookup(x.client.conflicts, k.name, m);
    WithoutConflictLookup(x.client.conflicts, k.name, k.name);
  }

  /** On the server it takes away the row the conflict is about and adds the file's, under the
      name itself or, if that is still taken, under a numbered one; no other row changes. */
  lemma KeepLocalRows(x: Site, k: Conflict, budget: nat, desktop: bool, r: Row)
    requires Valid(x.tables)
    ensures var y, c := KeepLocal(x, k, budget, desktop), x.client;
            r in y.tables.files
            <==> || (r in x.tables.files
                     && !(r.id == k.remoteId && r.owner == c.owner && (k.name in c.folder || desktop)))
                 || (MineStored(x, k, budget, desktop)
                     && r == CreateFile(RowsAtUpload(x, k, desktop), c.owner, k.name, c.folder[k.name]).row)
  {
    BuriedRows(x.tables, x.client.owner, k.remoteId, r);
    if MineStored(x, k, budget, desktop) {
      CreatedRows(RowsAtUpload(x, k, desktop), x.client.owner, k.name, x.client.folder[k.name], r);
    }
  }

  lemma BuriedRows(s: Tables, owner: nat, id: nat, r: Row)
    requires UniqueIds(s.files)
    ensures r in Bury(s, owner, id).files <==> r in s.files && !(r.id == id && r.owner == owner)
  {
    if FindId(s.files, owner, id).Some? {
      WithoutMembers(s.files, id);
    }
  }

  lemma CreatedRows(s: Tables, owner: nat, filename: string, body: Content, r: Row)
    requires CreateFile(s, owner, filename, body).Created?
    ensures var c := CreateFile(s, owner, filename, body); r in c.tables.files <==> r in s.files || r == c.row
  {
  }

  // ---- Keep remote ------------------------------------------------------------------------

  /** Keep-remote changes one name, when it gets through, and nothing otherwise. */
  lemma KeepRemoteDoes(x: Site, k: Conflict, budget: nat, m: string)
    ensures var y, c := KeepRemote(x, k, budget), x.client;
            var remote := FindId(x.tables.files, c.owner, k.remoteId);
            && SameSession(c, y.client) && y.tables == x.tables
            && (m != k.name ==> SameOnClient(c, y.client, m))
            && (if remote.Some? && budget > 0 then
                  var body := remote.value.body;
                  && At(y.client.folder, k.name) == Some(body)
                  && At(y.client.entries, k.name) == Some(Entry(k.remoteId, |body|, Digest(body)))
                  && ConflictOf(y.client.conflicts, k.name) == None
                else y.client == c)
  {
    WithoutConflictLookup(x.client.conflicts, k.name, m);
    WithoutConflictLookup(x.client.conflicts, k.name, k.name);
  }

  // ---- Keep both --------------------------------------------------------------------------

  /** In every state that keep-both goes through, other names are as they were. */
  lemma KeepBothOthers(x: Site, k: Conflict, date: string, budget: nat, desktop: bool, y: Site, m: string)
    requires y in KeepBoth(x, k, date, budget, desktop) && m != k.name && m != ConflictCopyName(k.name, date)
    ensures SameOnClient(x.client, y.client, m) && SameSession(x.client, y.client)
  {
    var copy := ConflictCopyName(k.name, date);
    var early := TraceEarly(x, k, date, budget, desktop, y);
    if !early {
      var edit := x.client.folder[k.name];
      var c := CreateFile(x.tables, x.client.owner, copy, edit);
      var sent := WriteFile(x, copy, edit).(tables := c.tables);
      AfterUploadOthers(sent, k, copy, edit, c.row, budget - 1, desktop, y, m);
    }
  }

  lemma AfterUploadOthers(sent: Site, k: Conflict, copy: string, edit: Content, row: Row, calls: nat, desktop: bool,
                          y: Site, m: string)
    requires y in AfterUpload(sent, k, copy, edit, row, calls, desktop) && m != k.name && m != copy
    ensures SameOnClient(sent.client, y.client, m) && SameSession(sent.client, y.client)
  {
    WithoutConflictLookup(sent.client.conflicts, k.name, m);
  }

  /** The copy could be made and uploaded. */
  predicate CopyStored(x: Site, k: Conflict, copy: string, budget: nat, desktop: bool) {
    && k.name in x.client.folder && (desktop ==> copy !in x.client.folder) && budget > 0
    && CreateFile(x.tables, x.client.owner, copy, x.client.folder[k.name]).Created?
  }

  function CopyRowOf(x: Site, k: Conflict, copy: string): Row
    requires k.name in x.client.folder
    requires CreateFile(x.tables, x.client.owner, copy, x.client.folder[k.name]).Created?
  {
    CreateFile(x.tables, x.client.owner, copy, x.client.folder[k.name]).row
  }

  /** And the remote row is live and its download answered: keep-both gets through. */
  predicate BothStored(x: Site, k: Conflict, copy: string, budget: nat, desktop: bool) {
    && CopyStored(x, k, copy, budget, desktop) && budget > 1
    && FindId(x.tables.files, x.client.owner, k.remoteId).Some?
  }

  /** The client after keep-both has got through. */
  ghost predicate BothEnd(x: Site, z: Site, k: Conflict, copy: string, edit: Content, copyId: nat, remote: Content) {
    && z.client.folder == x.client.folder[copy := edit][k.name := remote]
    && z.client.entries == x.client.entries[copy := Entry(copyId, |edit|, Digest(edit))]
                                           [k.name := Entry(k.remoteId, |remote|, Digest(remote))]
    && ConflictOf(z.client.conflicts, k.name) == None
  }

  /** The client after it has failed: no file has the copy's name, the conflict is still there
      with its file, and only the desktop version has an entry to show for an upload that went
      through. */
  ghost predicate BothFailed(x: Site, z: Site, copy: string, copyEntry: Option<Entry>) {
    && z.client.folder == x.client.folder - {copy} && z.client.conflicts == x.client.conflicts
    && z.client.entries == if copyEntry.Some? then x.client.entries[copy := copyEntry.value] else x.client.entries
  }

  /** The entry that a failed desktop resolution leaves behind. */
  function LeftEntry(x: Site, k: Conflict, copy: string, budget: nat, desktop: bool): Option<Entry> {
    if CopyStored(x, k, copy, budget, desktop) && desktop then
      Some(Entry(CopyRowOf(x, k, copy).id, |x.client.folder[k.name]|, Digest(x.client.folder[k.name])))
    else None
  }

  /** Where keep-both ends. */
  lemma KeepBothDoes(x: Site, k: Conflict, date: string, budget: nat, desktop: bool)
    requires Valid(x.tables) && KnownRow(x.tables, x.client.owner, k.name, k.remoteId) && '.' !in date
    ensures var trace, copy, c := KeepBoth(x, k, date, budget, desktop), ConflictCopyName(k.name, date), x.client;
            var z := trace[|trace| - 1];
            if BothStored(x, k, copy, budget, desktop) then
              BothEnd(x, z, k, copy, c.folder[k.name], CopyRowOf(x, k, copy).id,
                      FindId(x.tables.files, c.owner, k.remoteId).value.body)
            else BothFailed(x, z, copy, LeftEntry(x, k, copy, budget, desktop))
  {
    var copy := ConflictCopyName(k.name, date);
    ConflictCopyInvertible(k.name, date);
    if CopyStored(x, k, copy, budget, desktop) {
      CopiedDoes(x, k, date, budget, desktop);
    } else if Copyable(x, k, copy, desktop) {
      NotSent(x, k, date, budget, desktop);
    }
  }

  lemma NotSent(x: Site, k: Conflict, date: string, budget: nat, desktop: bool)
    requires var copy := ConflictCopyName(k.name, date);
             Copyable(x, k, copy, desktop) && !CopyStored(x, k, copy, budget, desktop)
    ensures var trace, copy := KeepBoth(x, k, date, budget, desktop), ConflictCopyName(k.name, date);
            trace[|trace| - 1] == x.(client := x.client.(folder := x.client.folder - {copy}))
  {
    var copy := ConflictCopyName(k.name, date);
    assert x.client.folder[copy := x.client.folder[k.name]] - {copy} == x.client.folder - {copy};
  }

  lemma CopiedDoes(x: Site, k: Conflict, date: string, budget: nat, desktop: bool)
    requires Valid(x.tables) && KnownRow(x.tables, x.client.owner, k.name, k.remoteId)
    requires var copy := ConflictCopyName(k.name, date); copy != k.name && CopyStored(x, k, copy, budget, desktop)
    ensures var trace, copy, c := KeepBoth(x, k, date, budget, desktop), ConflictCopyName(k.name, date), x.client;
            var z := trace[|trace| - 1];
            && z.tables == CreateFile(x.tables, c.owner, copy, c.folder[k.name]).tables
            && (if BothStored(x, k, copy, budget, desktop) then
                  BothEnd(x, z, k, copy, c.folder[k.name], CopyRowOf(x, k, copy).id,
                          FindId(x.tables.files, c.owner, k.remoteId).value.body)
                else BothFailed(x, z, copy, LeftEntry(x, k, copy, budget, desktop)))
  {
    var copy, edit := ConflictCopyName(k.name, date), x.client.folder[k.name];
    var c := CreateFile(x.tables, x.client.owner, copy, edit);
    var sent := WriteFile(x, copy, edit).(tables := c.tables);
    FindIdAppend(x.tables.files, c.row, x.client.owner, k.remoteId);
    TraceEnds(x, k, date, budget, desktop);
    AfterUploadDoes(x, sent, k, copy, edit, c.row, budget - 1, desktop);
  }

  /** On the server it adds the copy's row, if it got that far, and changes no other. */
  lemma KeepBothRows(x: Site, k: Conflict, date: string, budget: nat, desktop: bool, r: Row)
    requires Valid(x.tables) && KnownRow(x.tables, x.client.owner, k.name, k.remoteId) && '.' !in date
    ensures var trace, copy := KeepBoth(x, k, date, budget, desktop), ConflictCopyName(k.name, date);
            r in trace[|trace| - 1].tables.files
            <==> r in x.tables.files || (CopyStored(x, k, copy, budget, desktop) && r == CopyRowOf(x, k, copy))
  {
    var copy := ConflictCopyName(k.name, date);
    ConflictCopyInvertible(k.name, date);
    if CopyStored(x, k, copy, budget, desktop) {
      CopiedDoes(x, k, date, budget, desktop);
      CreatedRows(x.tables, x.client.owner, copy, x.client.folder[k.name], r);
    } else if Copyable(x, k, copy, desktop) {
      NotSent(x, k, date, budget, desktop);
    }
  }

  lemma AfterUploadDoes(x: Site, sent: Site, k: Conflict, copy: string, edit: Content, row: Row, calls: nat,
                        desktop: bool)
    requires sent.client == x.client.(folder := x.client.folder[copy := edit]) && copy != k.name
    ensures var rest, found := AfterUpload(sent, k, copy, edit, row, calls, desktop),
                FindId(sent.tables.files, sent.client.owner, k.remoteId);
            var z := rest[|rest| - 1];
            && z.tables == sent.tables
            && (if found.Some? && calls > 0 then BothEnd(x, z, k, copy, edit, row.id, found.value.body)
                else BothFailed(x, z, copy, if desktop then Some(Entry(row.id, |edit|, Digest(edit))) else None))
  {
    WithoutConflictLookup(x.client.conflicts, k.name, k.name);
    assert x.client.folder[copy := edit] - {copy} == x.client.folder - {copy};
  }
}
