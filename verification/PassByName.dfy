/** What a completed pass does to one name, in full, said of the folder, the entries, the
    conflicts and the tables before and after, without any of the functions the pass is made of. */
module PassByName {
  import opened Basics
  import opened Repo
  import opened Reconcile
  import opened ReconcileTable
  import opened ReconcilePass
  import opened SyncTheorems
  import opened PassInvariant
  import opened SyncOutcome

  /** What the scan has of a name: dotfiles and unreadable files are not seen. */
  ghost function Scanned(c: Client, unreadable: set<string>, n: string): Option<Content> {
    if n !in c.folder || (n != "" && n[0] == '.') || n in unreadable then None else Some(c.folder[n])
  }

  ghost predicate HasConflict(c: Client, n: string) {
    exists k :: k in c.conflicts && k.name == n
  }

  /** The owner's row of the name has a version beyond the client's cursor. */
  ghost predicate Fresh(c: Client, row: Option<Row>) {
    row.Some? && row.value.version > c.cursor
  }

  ghost predicate BuriedSinceCursor(c: Client, s: Tables, n: string) {
    exists t :: t in s.deletions && t.row.owner == c.owner && t.row.name == n && t.version > c.cursor
  }

  /** Both sides changed: a new row with other bytes than the scanned file. */
  ghost predicate Clashes(c: Client, row: Option<Row>, file: Option<Content>) {
    Fresh(c, row) && file.Some? && file.value != row.value.body
  }

  /** The pass uploads the scanned file: no conflict, no tombstone, and changed or new. */
  ghost predicate Sends(c: Client, s: Tables, row: Option<Row>, file: Option<Content>, n: string) {
    && file.Some? && !HasConflict(c, n) && !Clashes(c, row, file) && !BuriedSinceCursor(c, s, n)
    && (if n in c.entries then c.entries[n].size != |file.value| || c.entries[n].hash != Digest(file.value)
        else row.None?)
  }

  /** The pass deletes the row: a tracked name that the scan does not have, and that is neither
      unreadable nor in conflict nor news from the server. */
  ghost predicate Deletes(c: Client, s: Tables, unreadable: set<string>, row: Option<Row>, n: string) {
    && Scanned(c, unreadable, n).None? && n in c.entries && n !in unreadable && !HasConflict(c, n)
    && !Fresh(c, row) && !BuriedSinceCursor(c, s, n)
  }

  /** The whole effect on the client: file, conflict, entry. `now` is the name's row afterwards. */
  ghost predicate ClientSide(c: Client, s: Tables, unreadable: set<string>, y: Client, now: Option<Row>, n: string) {
    var row := FindName(s.files, c.owner, n);
    var file, buried := Scanned(c, unreadable, n), BuriedSinceCursor(c, s, n);
    var fetched := Fresh(c, row) && file.None?;
    && At(y.folder, n) == (if buried then None else if fetched then Some(row.value.body) else At(c.folder, n))
    && ConflictOf(y.conflicts, n)
       == (if Clashes(c, row, file) then Some(Conflict(n, row.value.id, |file.value|, |row.value.body|))
           else ConflictOf(c.conflicts, n))
    && At(y.entries, n)
       == (if Sends(c, s, row, file, n) && now.Some? then Some(Entry(now.value.id, |file.value|, Digest(file.value)))
           else if buried || Deletes(c, s, unreadable, row, n) then None
           else if fetched then Some(Entry(row.value.id, |row.value.body|, Digest(row.value.body)))
           else At(c.entries, n))
  }

  /** The whole effect on the server. */
  ghost predicate ServerSide(c: Client, s: Tables, unreadable: set<string>, now: Option<Row>, n: string) {
    var row, file := FindName(s.files, c.owner, n), Scanned(c, unreadable, n);
    if Sends(c, s, row, file, n) then
      && now.Some? && now.value.body == file.value && now.value.hash == Digest(file.value)
      && now.value.id > s.lastId && now.value.version > s.lastVersion
    else if Deletes(c, s, unreadable, row, n) then now.None?
    else now == row
  }

  // ---- The decision table says the same ---------------------------------------------------

  /** What carrying out a fate means for a slot and its row, seen at `file`. */
  ghost predicate Ends(slot: Slot, fate: Fate, file: Option<Content>, row: Option<Row>, s: Tables, end: Slot,
                       now: Option<Row>) {
    match fate
    case Keep => end == slot && now == row
    case Drop => end == slot.(entry := None) && now.None?
    case _ =>
      && file.Some? && now.Some? && now.value.body == file.value && now.value.hash == Digest(file.value)
      && now.value.id > s.lastId && now.value.version > s.lastVersion
      && end == slot.(entry := Some(EntryFor(file.value, now.value.id)))
  }

  ghost predicate SlotClash(file: Option<Content>, w: Window) {
    w.changed && w.remote.Some? && file.Some? && file.value != w.remote.value.body
  }

  ghost predicate SlotSends(slot: Slot, file: Option<Content>, w: Window) {
    && file.Some? && !slot.conflicted && !SlotClash(file, w) && !w.buried
    && (if slot.entry.Some? then slot.entry.value.size != |file.value| || slot.entry.value.hash != Digest(file.value)
        else w.remote.None?)
  }

  ghost predicate SlotDeletes(slot: Slot, file: Option<Content>, unreadable: bool, w: Window) {
    file.None? && slot.entry.Some? && !unreadable && !slot.conflicted && !w.changed && !w.buried
  }

  ghost function FateOfSlot(slot: Slot, file: Option<Content>, unreadable: bool, w: Window, n: string): Fate
    requires w.changed ==> w.remote.Some?
  {
    Decide(AfterDiff(slot, file, w, n),
           Seen(file, unreadable, w.remote, if w.remote.Some? then Some(w.remote.value.body) else None))
  }

  lemma FateCases(slot: Slot, file: Option<Content>, unreadable: bool, w: Window, n: string)
    requires w.changed ==> w.remote.Some?
    requires w.remote.Some? ==> w.remote.value.hash == Digest(w.remote.value.body)
    requires !slot.deleted && !slot.downloaded
    ensures var fate := FateOfSlot(slot, file, unreadable, w, n);
            && (fate == Create || fate == Replace <==> SlotSends(slot, file, w))
            && (fate == Drop <==> SlotDeletes(slot, file, unreadable, w))
  {
  }

  lemma SlotCases(slot: Slot, file: Option<Content>, w: Window, n: string)
    requires w.changed ==> w.remote.Some?
    requires w.remote.Some? ==> w.remote.value.hash == Digest(w.remote.value.body)
    ensures var out, fetched := AfterDiff(slot, file, w, n), w.changed && file.None?;
            && out.file == (if w.buried then None else if fetched then Some(w.remote.value.body) else slot.file)
            && out.conflict
               == (if SlotClash(file, w) then
                     Some(Conflict(n, w.remote.value.id, |file.value|, |w.remote.value.body|))
                   else slot.conflict)
            && out.entry
               == (if w.buried then None
                   else if fetched then
                     Some(Entry(w.remote.value.id, |w.remote.value.body|, Digest(w.remote.value.body)))
                   else slot.entry)
  {
  }

  lemma TableEnds(env: Env, c: Client, s: Tables, budget: nat, order: seq<string>, removals: seq<string>, n: string)
    requires Completed(env, c, s, budget, order, removals)
    ensures var f, w := RunPass(env, c, s, budget, order, removals), WindowOf(s, c.owner, c.cursor, n);
            var file := At(env.scan, n);
            Ends(AfterDiff(Slot0(c, n), file, w, n), FateOfSlot(Slot0(c, n), file, n in env.unreadable, w, n), file,
                 w.remote, s, SlotOf(f, n), FindName(f.tables.files, c.owner, n))
  {
    PassTable(env, c, s, budget, order, removals, n);
    SeenLive(env, s, n);
  }

  lemma WindowIs(env: Env, c: Client, s: Tables, n: string)
    requires PassEnv(env, c, s)
    ensures var w := WindowOf(s, c.owner, c.cursor, n);
            && w.remote == FindName(s.files, c.owner, n) && (w.changed <==> Fresh(c, w.remote))
            && (w.buried <==> BuriedSinceCursor(c, s, n))
            && (Slot0(c, n).conflicted <==> HasConflict(c, n))
            && Scanned(c, env.unreadable, n) == At(env.scan, n)
  {
  }

  lemma NameEnds(c: Client, s: Tables, unreadable: set<string>, y: Client, end: Slot, now: Option<Row>, n: string)
    requires var w, file := WindowOf(s, c.owner, c.cursor, n), Scanned(c, unreadable, n);
             && (w.buried <==> BuriedSinceCursor(c, s, n)) && (Slot0(c, n).conflicted <==> HasConflict(c, n))
             && (w.remote.Some? ==> w.remote.value.hash == Digest(w.remote.value.body))
             && Ends(AfterDiff(Slot0(c, n), file, w, n), FateOfSlot(Slot0(c, n), file, n in unreadable, w, n), file,
                     w.remote, s, end, now)
    requires end.file == At(y.folder, n) && end.entry == At(y.entries, n) && end.conflict == ConflictOf(y.conflicts, n)
    ensures ClientSide(c, s, unreadable, y, now, n) && ServerSide(c, s, unreadable, now, n)
  {
    var w, file := WindowOf(s, c.owner, c.cursor, n), Scanned(c, unreadable, n);
    FateCases(Slot0(c, n), file, n in unreadable, w, n);
    SlotCases(Slot0(c, n), file, w, n);
  }

  // ---- The theorem ------------------------------------------------------------------------

  /** A completed pass does to each name exactly this, and leaves the cursor at the window's end,
      on the desktop and on the web. */
  lemma PassDoes(env: Env, c: Client, s: Tables, budget: nat, order: seq<string>, removals: seq<string>, n: string)
    requires Completed(env, c, s, budget, order, removals)
    ensures var y := DesktopAfter(env, c, s, budget, order, removals);
            var now := FindName(RunPass(env, c, s, budget, order, removals).tables.files, c.owner, n);
            && WebAfter(env, c, s, budget, order, removals) == y && y.owner == c.owner
            && ClientAfter(env, c, s, budget, order, removals) == y
            && y.cursor == NewCursor(s, c.owner, c.cursor)
            && ClientSide(c, s, env.unreadable, y, now, n) && ServerSide(c, s, env.unreadable, now, n)
  {
    var y, f := DesktopAfter(env, c, s, budget, order, removals), RunPass(env, c, s, budget, order, removals);
    var row := FindName(s.files, c.owner, n);
    PassKeepsClient(env, c, s, budget, order, removals);
    AbortedStays(env, AfterActions(env, c, s, budget), order, removals);
    TableEnds(env, c, s, budget, order, removals, n);
    WindowIs(env, c, s, n);
    NameEnds(c, s, env.unreadable, y, SlotOf(f, n), FindName(f.tables.files, c.owner, n), n);
  }
}
