/** What one completed pass achieves, name by name: exactly when the two sides agree, exactly
    when a second pass is idle, and why the visiting order does not matter. */
module SyncOutcome {
  import opened Basics
  import opened Repo
  import opened Reconcile
  import opened ReconcileTable
  import opened ReconcilePass
  import opened SyncTheorems
  import opened PassInvariant

  /** A completed pass of a client against the server, and what it left. */
  ghost predicate Completed(env: Env, c: Client, s: Tables, budget: nat, order: seq<string>, removals: seq<string>) {
    && ServerOk(s) && ClientOk(c, s) && PassEnv(env, c, s)
    && Orders(env, c, s, budget, order, removals)
    && !RunPass(env, c, s, budget, order, removals).aborted
  }

  // ---- The decision table as a pure function of one name's view ---------------------------

  /** All a pass knows about one name beforehand: the client's side, whether the scan can see
      or read it, and the server's side since the cursor. */
  datatype View = View(name: string, slot: Slot, hidden: bool, unreadable: bool, window: Window)

  ghost function ViewOf(env: Env, c: Client, s: Tables, n: string): View {
    View(n, Slot0(c, n), Hidden(n), n in env.unreadable, WindowOf(s, c.owner, c.cursor, n))
  }

  function Local(v: View): Option<Content> {
    if v.hidden || v.unreadable then None else v.slot.file
  }

  function Body(row: Option<Row>): Option<Content> {
    if row.Some? then Some(row.value.body) else None
  }

  function Acted(v: View): Slot
    requires v.window.changed ==> v.window.remote.Some?
  {
    AfterDiff(v.slot, Local(v), v.window, v.name)
  }

  function Verdict(v: View): Fate
    requires v.window.changed ==> v.window.remote.Some?
  {
    Decide(Acted(v), Seen(Local(v), v.unreadable, v.window.remote, Body(v.window.remote)))
  }

  /** What the invariants say of a view. */
  ghost predicate Sane(v: View) {
    && (v.window.changed ==> v.window.remote.Some?)
    && (v.window.remote.Some? ==> v.window.remote.value.hash == Digest(v.window.remote.value.body))
    && (v.slot.entry.Some? && !v.window.buried ==>
          v.window.remote.Some? && Describes(v.slot.entry.value, v.window.remote.value))
    && !v.slot.deleted && !v.slot.downloaded
  }

  /** The name after the pass: the client's side, the live row, and whether the pass itself
      made that row or buried the name. */
  datatype Result = Result(slot: Slot, live: Option<Row>, made: bool, buried: bool)

  ghost function ResultOf(f: Pass, owner: nat, since: nat, n: string): Result {
    var live := FindName(f.tables.files, owner, n);
    Result(SlotOf(f, n), live, live.Some? && live.value.version > since,
           BuriedName(f.tables.deletions, owner, n, since))
  }

  /** The decision table: the result a view leads to, up to the id and version of a new row. */
  ghost predicate Leads(v: View, r: Result)
    requires Sane(v)
  {
    var slot := Acted(v);
    match Verdict(v)
    case Keep => r == Result(slot, v.window.remote, false, false)
    case Drop => r == Result(slot.(entry := None), None, false, true)
    case Create =>
      && r.live.Some? && Body(r.live) == Local(v) && r.made && !r.buried
      && r.slot == slot.(entry := Some(EntryFor(r.live.value.body, r.live.value.id)))
    case Replace =>
      && r.live.Some? && Body(r.live) == Local(v) && r.made && r.buried
      && r.slot == slot.(entry := Some(EntryFor(r.live.value.body, r.live.value.id)))
  }

  lemma ScanIff(folder: map<string, Content>, unreadable: set<string>, n: string)
    ensures At(Scan(folder, unreadable), n) == if Hidden(n) || n in unreadable then None else At(folder, n)
  {
  }

  lemma ViewSane(env: Env, c: Client, s: Tables, n: string)
    requires ServerOk(s) && ClientOk(c, s) && PassEnv(env, c, s)
    ensures Sane(ViewOf(env, c, s, n))
    ensures Local(ViewOf(env, c, s, n)) == At(env.scan, n)
    ensures Acted(ViewOf(env, c, s, n)) == Slot1(env, c, s, n)
    ensures Verdict(ViewOf(env, c, s, n)) == FateFor(env, c, s, n)
  {
    ScanIff(c.folder, env.unreadable, n);
    SeenLive(env, s, n);
    if n in c.entries && !BuriedName(s.deletions, c.owner, n, c.cursor) {
      assert !EntryBuried(s.deletions, c.owner, n, c.entries[n], c.cursor);
    }
  }

  /** A completed pass leaves each name as the table says, from that name's view alone. */
  lemma PassFollowsTable(env: Env, c: Client, s: Tables, budget: nat, order: seq<string>, removals: seq<string>,
                         n: string)
    requires Completed(env, c, s, budget, order, removals)
    ensures var f, v := RunPass(env, c, s, budget, order, removals), ViewOf(env, c, s, n);
            && Sane(v) && Leads(v, ResultOf(f, c.owner, NewCursor(s, c.owner, c.cursor), n))
            && (SlotOf(f, n).conflicted <==> n in ConflictNames(f.conflicts))
  {
    ViewSane(env, c, s, n);
    PassTable(env, c, s, budget, order, removals, n);
    PassFolder(env, c, s, budget, order, removals);
    CursorCovers(s, c.owner, c.cursor);
    assert !BuriedName(s.deletions, c.owner, n, NewCursor(s, c.owner, c.cursor));
  }

  /** So two passes that start alike end alike, whatever order they visit names in: the same
      folder and conflicts, the same entries and server rows up to fresh ids. */
  lemma OrderIrrelevant(env: Env, c: Client, s: Tables, budget: nat, n: string,
                        order: seq<string>, removals: seq<string>, order2: seq<string>, removals2: seq<string>)
    requires Completed(env, c, s, budget, order, removals) && Completed(env, c, s, budget, order2, removals2)
    ensures var f, g := RunPass(env, c, s, budget, order, removals), RunPass(env, c, s, budget, order2, removals2);
            && At(f.folder, n) == At(g.folder, n) && ConflictOf(f.conflicts, n) == ConflictOf(g.conflicts, n)
            && (n in f.entries <==> n in g.entries)
            && (n in f.entries ==> f.entries[n].hash == g.entries[n].hash && f.entries[n].size == g.entries[n].size)
            && Body(FindName(f.tables.files, c.owner, n)) == Body(FindName(g.tables.files, c.owner, n))
            && (!Verdict(ViewOf(env, c, s, n)).Create? && !Verdict(ViewOf(env, c, s, n)).Replace? ==>
                  At(f.entries, n) == At(g.entries, n)
                  && FindName(f.tables.files, c.owner, n) == FindName(g.tables.files, c.owner, n))
  {
    PassFollowsTable(env, c, s, budget, order, removals, n);
    PassFollowsTable(env, c, s, budget, order2, removals2, n);
    var since, v := NewCursor(s, c.owner, c.cursor), ViewOf(env, c, s, n);
    var f, g := RunPass(env, c, s, budget, order, removals), RunPass(env, c, s, budget, order2, removals2);
    SameEnds(v, ResultOf(f, c.owner, since, n), ResultOf(g, c.owner, since, n));
  }

  lemma SameEnds(v: View, a: Result, b: Result)
    requires Sane(v) && Leads(v, a) && Leads(v, b)
    ensures a.slot.file == b.slot.file && a.slot.conflict == b.slot.conflict
    ensures a.slot.entry.Some? == b.slot.entry.Some?
    ensures a.slot.entry.Some? ==> a.slot.entry.value.hash == b.slot.entry.value.hash
                                   && a.slot.entry.value.size == b.slot.entry.value.size
    ensures Body(a.live) == Body(b.live)
    ensures !Verdict(v).Create? && !Verdict(v).Replace? ==> a == b
  {
  }

  // ---- Convergence ------------------------------------------------------------------------

  /** Both sides hold the same bytes, or neither has the name, or the user has been asked. */
  ghost predicate Converged(f: Pass, owner: nat, n: string) {
    At(f.folder, n) == Body(FindName(f.tables.files, owner, n)) || n in ConflictNames(f.conflicts)
  }

  /** What decides it, all known before the pass changes anything. */
  ghost predicate WillConverge(v: View) {
    var server, local := Body(v.window.remote), Local(v);
    || v.slot.conflicted
    || (if v.window.buried then server.None? || (v.window.changed && local.Some? && local != server)
        else if v.window.changed then true
        else if local.Some? then server.None? || local == server || v.slot.entry.Some?
        else if v.slot.entry.Some? && !v.unreadable then v.slot.file.None?
        else v.slot.file == server)
  }

  lemma ConvergeCases(v: View, r: Result)
    requires Sane(v) && Leads(v, r)
    ensures r.slot.file == Body(r.live) || r.slot.conflicted <==> WillConverge(v)
  {
  }

  /** One-pass convergence, exactly, for every name whatsoever. */
  lemma ConvergesIff(env: Env, c: Client, s: Tables, budget: nat, order: seq<string>, removals: seq<string>, n: string)
    requires Completed(env, c, s, budget, order, removals)
    ensures Converged(RunPass(env, c, s, budget, order, removals), c.owner, n) <==> WillConverge(ViewOf(env, c, s, n))
  {
    PassFollowsTable(env, c, s, budget, order, removals, n);
    ConvergeCases(ViewOf(env, c, s, n),
                  ResultOf(RunPass(env, c, s, budget, order, removals), c.owner, NewCursor(s, c.owner, c.cursor), n));
  }

  /** The promised case: a readable name that was tracked, or reported by the diff, or absent
      from the server converges, unless the window buries a name that is live. */
  lemma ReadableNamesConverge(env: Env, c: Client, s: Tables, budget: nat, order: seq<string>, removals: seq<string>,
                              n: string)
    requires Completed(env, c, s, budget, order, removals)
    requires !Hidden(n) && n !in env.unreadable
    requires var w := WindowOf(s, c.owner, c.cursor, n);
             (w.buried ==> w.remote.None?) && (n in c.entries || w.changed || w.buried || w.remote.None?)
    ensures Converged(RunPass(env, c, s, budget, order, removals), c.owner, n)
  {
    ConvergesIff(env, c, s, budget, order, removals, n);
    ViewSane(env, c, s, n);
  }

  // ---- Dotfiles ---------------------------------------------------------------------------

  /** A tracked file that is still on disk has its live row deleted by a completed pass, without
      a replacement, exactly when its name starts with a dot, so that the scan never sees it,
      and neither a conflict, an unreadable folder entry nor news from the server intervenes.
      That pass leaves the file itself, forgotten. */
  lemma LiveFileDeletedIff(env: Env, c: Client, s: Tables, budget: nat, order: seq<string>, removals: seq<string>,
                           n: string)
    requires Completed(env, c, s, budget, order, removals)
    requires n in c.entries && n in c.folder && FindName(s.files, c.owner, n).Some?
    ensures var f, w := RunPass(env, c, s, budget, order, removals), WindowOf(s, c.owner, c.cursor, n);
            && (FindName(f.tables.files, c.owner, n).None?
                <==> Hidden(n) && n !in env.unreadable && n !in ConflictNames(c.conflicts) && !w.changed && !w.buried)
            && (FindName(f.tables.files, c.owner, n).None? ==>
                  At(f.folder, n) == At(c.folder, n) && n !in f.entries)
  {
    PassFollowsTable(env, c, s, budget, order, removals, n);
    DotCases(ViewOf(env, c, s, n),
             ResultOf(RunPass(env, c, s, budget, order, removals), c.owner, NewCursor(s, c.owner, c.cursor), n));
    SlotFields(RunPass(env, c, s, budget, order, removals), n);
  }

  lemma SlotFields(f: Pass, n: string)
    ensures SlotOf(f, n).file == At(f.folder, n) && SlotOf(f, n).entry == At(f.entries, n)
  {
  }

  lemma DotCases(v: View, r: Result)
    requires Sane(v) && Leads(v, r) && v.slot.entry.Some? && v.slot.file.Some? && v.window.remote.Some?
    ensures r.live.None? <==> v.hidden && !v.unreadable && !v.slot.conflicted && !v.window.changed && !v.window.buried
    ensures r.live.None? ==> r.slot.file == v.slot.file && r.slot.entry.None?
  {
  }

  // ---- The second pass --------------------------------------------------------------------

  /** The client a completed pass leaves (desktop and web agree). */
  function ClientAfter(env: Env, c: Client, s: Tables, budget: nat, order: seq<string>, removals: seq<string>): Client
    requires forall n :: n in order ==> n in env.scan
  {
    var f := RunPass(env, c, s, budget, order, removals);
    Client(c.owner, f.folder, f.entries, NewCursor(s, c.owner, c.cursor), f.conflicts)
  }

  /** The view of the next pass, when nothing happens in between. */
  function NextView(v: View, r: Result): View {
    v.(slot := r.slot.(deleted := false, downloaded := false), window := Window(r.live, r.made, r.buried))
  }

  /** A name is the same on both sides, in the entries and in the conflicts. */
  ghost predicate SameName(f: Pass, g: Pass, owner: nat, n: string) {
    && At(g.folder, n) == At(f.folder, n) && At(g.entries, n) == At(f.entries, n)
    && ConflictOf(g.conflicts, n) == ConflictOf(f.conflicts, n)
    && FindName(g.tables.files, owner, n) == FindName(f.tables.files, owner, n)
  }

  /** The names a second pass leaves alone, told before the first one. */
  ghost predicate Stable(v: View)
    requires Sane(v)
  {
    match Verdict(v)
    case Create => true
    case Replace => false
    case Drop => Acted(v).file.None?
    case Keep => !(v.hidden && !v.unreadable && Acted(v).entry.Some? && !Acted(v).conflicted)
  }

  lemma StableCases(v: View, r: Result, r2: Result)
    requires Sane(v) && Leads(v, r) && Sane(NextView(v, r)) && Leads(NextView(v, r), r2)
    ensures r2.slot.(conflicted := false, deleted := false, downloaded := false)
            == r.slot.(conflicted := false, deleted := false, downloaded := false) && r2.live == r.live
            <==> Stable(v)
  {
  }

  lemma NextViewOf(env: Env, env2: Env, c: Client, s: Tables, budget: nat, order: seq<string>, removals: seq<string>,
                   n: string)
    requires Completed(env, c, s, budget, order, removals) && env2.unreadable == env.unreadable
    ensures var f, next := RunPass(env, c, s, budget, order, removals), ClientAfter(env, c, s, budget, order, removals);
            ViewOf(env2, next, f.tables, n)
            == NextView(ViewOf(env, c, s, n), ResultOf(f, c.owner, NewCursor(s, c.owner, c.cursor), n))
  {
    PassFollowsTable(env, c, s, budget, order, removals, n);
  }

  /** Quiescence, exactly: when nothing changes in between, the next completed pass changes a
      name if and only if the first one re-uploaded it, or it is a tracked dotfile the scan
      cannot see; although the first pass's uploads and tombstones are all in its window. */
  lemma SecondPassIdleIff(env: Env, env2: Env, c: Client, s: Tables,
                          budget: nat, order: seq<string>, removals: seq<string>,
                          budget2: nat, order2: seq<string>, removals2: seq<string>, n: string)
    requires Completed(env, c, s, budget, order, removals)
    requires Completed(env2, ClientAfter(env, c, s, budget, order, removals),
                       RunPass(env, c, s, budget, order, removals).tables, budget2, order2, removals2)
    requires env2.unreadable == env.unreadable
    ensures var f := RunPass(env, c, s, budget, order, removals);
            var g := RunPass(env2, ClientAfter(env, c, s, budget, order, removals), f.tables, budget2, order2,
                             removals2);
            && Sane(ViewOf(env, c, s, n))
            && (SameName(f, g, c.owner, n) <==> Stable(ViewOf(env, c, s, n)))
  {
    var f, next := RunPass(env, c, s, budget, order, removals), ClientAfter(env, c, s, budget, order, removals);
    var g := RunPass(env2, next, f.tables, budget2, order2, removals2);
    PassFollowsTable(env, c, s, budget, order, removals, n);
    PassFollowsTable(env2, next, f.tables, budget2, order2, removals2, n);
    NextViewOf(env, env2, c, s, budget, order, removals, n);
    StableCases(ViewOf(env, c, s, n), ResultOf(f, c.owner, next.cursor, n),
                ResultOf(g, c.owner, NewCursor(f.tables, c.owner, next.cursor), n));
  }

  /** A re-upload is an unconflicted, unreported local edit of a tracked file. */
  lemma ReuploadIff(v: View)
    requires Sane(v)
    ensures Verdict(v) == Replace <==>
              && Local(v).Some? && v.slot.entry.Some? && !Matches(v.slot.entry.value, Local(v).value)
              && !v.window.changed && !v.window.buried && !v.slot.conflicted
    ensures !v.hidden ==> (Stable(v) <==> Verdict(v) != Replace)
  {
  }

  /** What the second pass does to a re-uploaded name: its own tombstone comes back as
      delete_local, so the file is removed and forgotten although the server keeps the row. */
  lemma ReuploadThenLost(env: Env, env2: Env, c: Client, s: Tables,
                         budget: nat, order: seq<string>, removals: seq<string>,
                         budget2: nat, order2: seq<string>, removals2: seq<string>, n: string)
    requires Completed(env, c, s, budget, order, removals)
    requires Completed(env2, ClientAfter(env, c, s, budget, order, removals),
                       RunPass(env, c, s, budget, order, removals).tables, budget2, order2, removals2)
    requires env2.unreadable == env.unreadable
    requires FateFor(env, c, s, n) == Replace
    ensures var f := RunPass(env, c, s, budget, order, removals);
            var g := RunPass(env2, ClientAfter(env, c, s, budget, order, removals), f.tables, budget2, order2,
                             removals2);
            && n in f.folder && Body(FindName(f.tables.files, c.owner, n)) == Some(f.folder[n])
            && n !in g.folder && n !in g.entries
            && FindName(g.tables.files, c.owner, n) == FindName(f.tables.files, c.owner, n)
  {
    var f, next := RunPass(env, c, s, budget, order, removals), ClientAfter(env, c, s, budget, order, removals);
    var g := RunPass(env2, next, f.tables, budget2, order2, removals2);
    PassFollowsTable(env, c, s, budget, order, removals, n);
    PassFollowsTable(env2, next, f.tables, budget2, order2, removals2, n);
    NextViewOf(env, env2, c, s, budget, order, removals, n);
    ViewSane(env, c, s, n);
    LostCases(ViewOf(env, c, s, n), ResultOf(f, c.owner, next.cursor, n),
              ResultOf(g, c.owner, NewCursor(f.tables, c.owner, next.cursor), n));
    assert SlotOf(f, n).file == At(f.folder, n);
    assert SlotOf(g, n).file == At(g.folder, n) && SlotOf(g, n).entry == At(g.entries, n);
  }

  /** Nor does a file stay whose row the first pass deleted: the pass's own tombstone comes back
      as delete_local and takes it, so that it is gone from both sides. */
  lemma DeletedThenLost(env: Env, env2: Env, c: Client, s: Tables,
                        budget: nat, order: seq<string>, removals: seq<string>,
                        budget2: nat, order2: seq<string>, removals2: seq<string>, n: string)
    requires Completed(env, c, s, budget, order, removals)
    requires Completed(env2, ClientAfter(env, c, s, budget, order, removals),
                       RunPass(env, c, s, budget, order, removals).tables, budget2, order2, removals2)
    requires env2.unreadable == env.unreadable
    requires n in c.entries && n in c.folder && FindName(s.files, c.owner, n).Some?
    requires FindName(RunPass(env, c, s, budget, order, removals).tables.files, c.owner, n).None?
    ensures var f := RunPass(env, c, s, budget, order, removals);
            var g := RunPass(env2, ClientAfter(env, c, s, budget, order, removals), f.tables, budget2, order2,
                             removals2);
            && At(f.folder, n) == At(c.folder, n)
            && n !in g.folder && n !in g.entries && FindName(g.tables.files, c.owner, n).None?
  {
    var f, next := RunPass(env, c, s, budget, order, removals), ClientAfter(env, c, s, budget, order, removals);
    var g := RunPass(env2, next, f.tables, budget2, order2, removals2);
    PassFollowsTable(env, c, s, budget, order, removals, n);
    PassFollowsTable(env2, next, f.tables, budget2, order2, removals2, n);
    NextViewOf(env, env2, c, s, budget, order, removals, n);
    GoneCases(ViewOf(env, c, s, n), ResultOf(f, c.owner, next.cursor, n),
              ResultOf(g, c.owner, NewCursor(f.tables, c.owner, next.cursor), n));
    SlotFields(f, n);
    SlotFields(g, n);
  }

  lemma GoneCases(v: View, r: Result, r2: Result)
    requires Sane(v) && Leads(v, r) && Sane(NextView(v, r)) && Leads(NextView(v, r), r2)
    requires v.slot.entry.Some? && v.slot.file.Some? && v.window.remote.Some? && r.live.None?
    ensures r.slot.file == v.slot.file && r2.slot.file.None? && r2.slot.entry.None? && r2.live.None?
  {
  }

  lemma LostCases(v: View, r: Result, r2: Result)
    requires Sane(v) && Leads(v, r) && Sane(NextView(v, r)) && Leads(NextView(v, r), r2) && Verdict(v) == Replace
    ensures r.slot.file.Some? && r.slot.file == Body(r.live)
    ensures r2.slot.file.None? && r2.slot.entry.None? && r2.live == r.live
  {
  }
}
