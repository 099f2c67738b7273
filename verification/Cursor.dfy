/** What the sync cursor promises over whole runs of the tables: a window from any cursor a
    client ever got is exactly the difference between then and now, and windows compose. */
module Cursor {
  import opened Basics
  import opened Repo

  /** One committed write by anybody, or values of the two sequences that failed inserts have
      used up. A delete of a missing row changes nothing. */
  datatype Write =
    | Inserted(owner: nat, name: string, body: Content)
    | Buried(owner: nat, id: nat)
    | Burnt(ids: nat, versions: nat)

  function Burn(s: Tables, ids: nat, versions: nat): Tables {
    s.(lastId := s.lastId + ids, lastVersion := s.lastVersion + versions)
  }

  function Apply(s: Tables, w: Write): Tables {
    match w
    case Inserted(owner, name, body) =>
      if FindName(s.files, owner, name).Some? then s else Insert(s, owner, name, body)
    case Buried(owner, id) => Bury(s, owner, id)
    case Burnt(ids, versions) => Burn(s, ids, versions)
  }

  function Run(s: Tables, writes: seq<Write>): Tables {
    if writes == [] then s else Apply(Run(s, writes[..|writes| - 1]), writes[|writes| - 1])
  }

  /** What the writes do, each row and tombstone told. */
  lemma WritesAre(s: Tables, w: Write)
    requires UniqueIds(s.files)
    ensures var t := Apply(s, w);
            match w
            case Inserted(owner, name, body) =>
              if exists r :: r in s.files && r.owner == owner && r.name == name then t == s
              else
                t == Tables(s.files + [Row(s.lastId + 1, owner, name, body, Digest(body), s.lastVersion + 1)],
                            s.deletions, s.lastId + 1, s.lastVersion + 1)
            case Buried(owner, id) =>
              if r :| r in s.files && r.owner == owner && r.id == id then
                && (forall f :: f in t.files <==> f in s.files && f != r)
                && t.deletions == s.deletions + [Tomb(r, s.lastVersion + 1)]
                && t.lastId == s.lastId && t.lastVersion == s.lastVersion + 1
              else t == s
            case Burnt(ids, versions) =>
              t == Tables(s.files, s.deletions, s.lastId + ids, s.lastVersion + versions)
  {
    match w
    case Inserted(owner, name, body) =>
      assert FindName(s.files, owner, name).Some? <==> exists r :: r in s.files && r.owner == owner && r.name == name;
    case Buried(owner, id) =>
      WithoutMembers(s.files, id);
    case Burnt(_, _) =>
  }

  /** The row has a tombstone newer than `since`. */
  ghost predicate BuriedSince(deletions: seq<Tomb>, r: Row, since: nat) {
    exists d :: d in deletions && d.row == r && d.version > since
  }

  ghost predicate LaterFiles(s: Tables, t: Tables) {
    && (forall r :: r in t.files ==> r in s.files || (r.version > s.lastVersion && r.id > s.lastId))
    && (forall r :: r in s.files ==> r in t.files || BuriedSince(t.deletions, r, s.lastVersion))
  }

  /** What every run keeps between an earlier and a later state. */
  ghost predicate Later(s: Tables, t: Tables) {
    && s.lastVersion <= t.lastVersion && s.lastId <= t.lastId
    && s.deletions <= t.deletions
    && (forall d :: d in t.deletions ==> d in s.deletions || d.version > s.lastVersion)
    && LaterFiles(s, t)
  }

  lemma PutLater(s: Tables, t: Tables, owner: nat, name: string, body: Content)
    requires Later(s, t)
    ensures Later(s, Insert(t, owner, name, body))
  {
    var u, row := Insert(t, owner, name, body), NewRow(t, owner, name, body);
    assert forall r :: r in u.files <==> r in t.files || r == row;
  }

  lemma DropLater(s: Tables, t: Tables, owner: nat, id: nat)
    requires Later(s, t) && UniqueIds(t.files)
    ensures Later(s, Bury(t, owner, id))
  {
    if FindId(t.files, owner, id).Some? {
      var u, row := Bury(t, owner, id), FindId(t.files, owner, id).value;
      var tomb := Tomb(row, t.lastVersion + 1);
      WithoutMembers(t.files, id);
      assert forall d :: d in u.deletions <==> d in t.deletions || d == tomb;
      forall r | r in s.files && r !in u.files
        ensures BuriedSince(u.deletions, r, s.lastVersion)
      {
        if r in t.files {
          assert r == row;
          assert tomb in u.deletions;
        } else {
          var d :| d in t.deletions && d.row == r && d.version > s.lastVersion;
          assert d in u.deletions;
        }
      }
    }
  }

  lemma BurnLater(s: Tables, t: Tables, ids: nat, versions: nat)
    requires Valid(t) && Later(s, t)
    ensures Valid(Burn(t, ids, versions)) && Later(s, Burn(t, ids, versions))
  {
  }

  lemma ApplyLater(s: Tables, t: Tables, w: Write)
    requires Valid(t) && Later(s, t)
    ensures Valid(Apply(t, w)) && Later(s, Apply(t, w))
    ensures Hashed(t.files) ==> Hashed(Apply(t, w).files)
  {
    match w
    case Inserted(owner, name, body) =>
      if FindName(t.files, owner, name).None? {
        InsertValid(t, owner, name, body);
        PutLater(s, t, owner, name, body);
      }
    case Buried(owner, id) =>
      BuryValid(t, owner, id);
      DropLater(s, t, owner, id);
    case Burnt(ids, versions) => BurnLater(s, t, ids, versions);
  }

  lemma {:induction false} RunLater(s: Tables, writes: seq<Write>)
    requires Valid(s)
    ensures Valid(Run(s, writes)) && Later(s, Run(s, writes))
    ensures Hashed(s.files) ==> Hashed(Run(s, writes).files)
  {
    if writes != [] {
      RunLater(s, writes[..|writes| - 1]);
      ApplyLater(s, Run(s, writes[..|writes| - 1]), writes[|writes| - 1]);
    }
  }

  function Owned(files: seq<Row>, owner: nat): set<Row> {
    set r | r in files && r.owner == owner
  }

  function Ids(tombs: seq<Tomb>): set<nat> {
    set t | t in tombs :: t.row.id
  }

  function RowSet(rows: seq<Row>): set<Row> {
    set r | r in rows
  }

  lemma {:induction false} DeletedAppend(a: seq<Tomb>, b: seq<Tomb>, owner: nat, since: nat)
    ensures Deleted(a + b, owner, since) == Deleted(a, owner, since) + Deleted(b, owner, since)
  {
    if b == [] {
      assert a + b == a;
    } else {
      var front := b[..|b| - 1];
      assert (a + b)[..|a + b| - 1] == a + front;
      DeletedAppend(a, front, owner, since);
    }
  }

  lemma {:induction false} DeletedAll(tombs: seq<Tomb>, owner: nat, low: nat, high: nat)
    requires low <= high
    requires forall t :: t in tombs ==> t.version > high
    ensures Deleted(tombs, owner, low) == Deleted(tombs, owner, high)
  {
    if tombs != [] {
      assert forall t :: t in tombs[..|tombs| - 1] ==> t in tombs;
      DeletedAll(tombs[..|tombs| - 1], owner, low, high);
    }
  }

  lemma {:induction false} ChangedNone(files: seq<Row>, owner: nat, since: nat)
    requires forall r :: r in files && r.owner == owner ==> r.version <= since
    ensures Changed(files, owner, since) == []
  {
    if files != [] {
      assert forall r :: r in files[..|files| - 1] ==> r in files;
      ChangedNone(files[..|files| - 1], owner, since);
    }
  }

  lemma {:induction false} DeletedNone(tombs: seq<Tomb>, owner: nat, since: nat)
    requires forall t :: t in tombs && t.row.owner == owner ==> t.version <= since
    ensures Deleted(tombs, owner, since) == []
  {
    if tombs != [] {
      assert forall t :: t in tombs[..|tombs| - 1] ==> t in tombs;
      DeletedNone(tombs[..|tombs| - 1], owner, since);
    }
  }

  /** Completeness: `cursor` is what the owner was handed in state `s`, after which anybody
      made any `writes`. The owner's rows then, plus the window's changed rows, minus the ids
      it reports deleted, are exactly the owner's rows now. */
  lemma CursorComplete(s: Tables, owner: nat, since: nat, writes: seq<Write>)
    requires Valid(s) && since <= s.lastVersion
    ensures var t, cursor := Run(s, writes), NewCursor(s, owner, since);
            var gone := Ids(Deleted(t.deletions, owner, cursor));
            Owned(t.files, owner)
            == (set r | r in Owned(s.files, owner) + RowSet(Changed(t.files, owner, cursor)) && r.id !in gone)
  {
    RunLater(s, writes);
    CursorCovers(s, owner, since);
    LiveSinceCursor(s, Run(s, writes), owner, NewCursor(s, owner, since));
  }

  lemma LiveSinceCursor(s: Tables, t: Tables, owner: nat, cursor: nat)
    requires LaterFiles(s, t) && cursor <= s.lastVersion
    requires forall d, r :: d in t.deletions && r in t.files ==> d.row.id != r.id
    requires forall r :: r in s.files && r.owner == owner ==> r.version <= cursor
    ensures Owned(t.files, owner)
            == (set r | r in Owned(s.files, owner) + RowSet(Changed(t.files, owner, cursor))
                        && r.id !in Ids(Deleted(t.deletions, owner, cursor)))
  {
    var gone := Ids(Deleted(t.deletions, owner, cursor));
    DeletedMembers(t.deletions, owner, cursor);
    ChangedMembers(t.files, owner, cursor);
    forall r | r in t.files
      ensures r.id !in gone
    {
    }
    forall r | r in s.files && r.owner == owner && r !in t.files
      ensures r.id in gone
    {
      var d :| d in t.deletions && d.row == r && d.version > s.lastVersion;
      assert d in Deleted(t.deletions, owner, cursor);
    }
  }

  lemma AddedTombs(s: Tables, t: Tables)
    requires Later(s, t) && TombsAscending(t.deletions)
    ensures forall d :: d in t.deletions[|s.deletions|..] ==> d.version > s.lastVersion
  {
  }

  /** Nothing recorded after the cursor was handed out has a version at or below it, and the
      cursor handed out later is never smaller. */
  lemma NothingSlipsUnderCursor(s: Tables, owner: nat, since: nat, writes: seq<Write>)
    requires Valid(s) && since <= s.lastVersion
    ensures var t, cursor := Run(s, writes), NewCursor(s, owner, since);
            && (forall r :: r in t.files && r !in s.files ==> r.version > cursor)
            && (forall d :: d in t.deletions && d !in s.deletions ==> d.version > cursor)
            && cursor <= NewCursor(t, owner, cursor) <= t.lastVersion
    ensures Later(s, Run(s, writes))
  {
    RunLater(s, writes);
    CursorCovers(s, owner, since);
    CursorCovers(Run(s, writes), owner, NewCursor(s, owner, since));
  }

  /** The rows of a window that a later one does not report deleted, in their order. */
  function Surviving(rows: seq<Row>, gone: set<nat>): seq<Row> {
    if rows == [] then []
    else
      var front, last := rows[..|rows| - 1], rows[|rows| - 1];
      Surviving(front, gone) + if last.id in gone then [] else [last]
  }

  lemma {:induction false} SurvivingMembers(rows: seq<Row>, gone: set<nat>)
    ensures forall r :: r in Surviving(rows, gone) <==> r in rows && r.id !in gone
  {
    if rows != [] {
      var front, last := rows[..|rows| - 1], rows[|rows| - 1];
      SurvivingMembers(front, gone);
      assert forall r :: r in rows <==> r in front || r == last;
    }
  }

  lemma {:induction false} SurvivingAscending(rows: seq<Row>, gone: set<nat>)
    requires Ascending(rows)
    ensures Ascending(Surviving(rows, gone))
  {
    if rows != [] {
      var front, last := rows[..|rows| - 1], rows[|rows| - 1];
      SurvivingAscending(front, gone);
      SurvivingMembers(front, gone);
      forall r | r in Surviving(front, gone)
        ensures r.version < last.version
      {
        assert r in front;
      }
    }
  }

  /** Versions leave no choice of order. */
  lemma {:induction false} OrderIsVersionOrder(a: seq<Row>, b: seq<Row>)
    requires Ascending(a) && Ascending(b) && forall r :: r in a <==> r in b
    ensures a == b
  {
    assert a != [] ==> a[0] in b;
    assert b != [] ==> b[0] in a;
    if a != [] && b != [] {
      var x, y := a[..|a| - 1], b[..|b| - 1];
      LastIsUnique(a, b);
      forall r | r in x
        ensures r in y
      {
        assert r in b;
      }
      forall r | r in y
        ensures r in x
      {
        assert r in a;
      }
      OrderIsVersionOrder(x, y);
    }
  }

  lemma LastIsUnique(a: seq<Row>, b: seq<Row>)
    requires Ascending(a) && Ascending(b) && a != [] && b != [] && forall r :: r in a <==> r in b
    ensures a[|a| - 1] == b[|b| - 1]
    ensures a[|a| - 1] !in a[..|a| - 1] && b[|b| - 1] !in b[..|b| - 1]
  {
    assert a[|a| - 1] in b && b[|b| - 1] in a;
  }

  lemma AscendingJoin(a: seq<Row>, b: seq<Row>, mid: nat)
    requires Ascending(a) && Ascending(b)
    requires (forall r :: r in a ==> r.version <= mid) && (forall r :: r in b ==> r.version > mid)
    ensures Ascending(a + b)
  {
    forall i, j | 0 <= i < |a| && 0 <= j < |b|
      ensures a[i].version < b[j].version
    {
      assert a[i] in a && b[j] in b;
    }
  }

  /** A cursor is where it started from, or the version of something the owner has. */
  lemma CursorAttained(s: Tables, owner: nat, since: nat)
    ensures var cursor := NewCursor(s, owner, since);
            || cursor == since
            || (exists r :: r in s.files && r.owner == owner && r.version == cursor)
            || (exists t :: t in s.deletions && t.row.owner == owner && t.version == cursor)
  {
    var rows, tombs := Changed(s.files, owner, since), Deleted(s.deletions, owner, since);
    ChangedMembers(s.files, owner, since);
    DeletedMembers(s.deletions, owner, since);
    MaxVersionBounds(rows, since);
    MaxTombVersionBounds(tombs, MaxVersion(rows, since));
  }

  /** Going on from a cursor leads to the same next cursor as starting all over. */
  lemma CursorsAgree(s: Tables, t: Tables, owner: nat, since: nat)
    requires Valid(s) && Valid(t) && Later(s, t) && since <= s.lastVersion
    ensures NewCursor(t, owner, since) == NewCursor(t, owner, NewCursor(s, owner, since))
  {
    var cursor := NewCursor(s, owner, since);
    CursorCovers(s, owner, since);
    CursorCovers(t, owner, since);
    CursorCovers(t, owner, cursor);
    CursorAttained(t, owner, since);
    CursorAttained(t, owner, cursor);
    CursorKept(s, t, owner, since);
  }

  /** What a cursor was attained by is still there, or is outdone by its own tombstone. */
  lemma CursorKept(s: Tables, t: Tables, owner: nat, since: nat)
    requires Valid(s) && Valid(t) && Later(s, t) && since <= s.lastVersion
    ensures NewCursor(s, owner, since) <= NewCursor(t, owner, since)
  {
    var cursor := NewCursor(s, owner, since);
    CursorCovers(s, owner, since);
    CursorCovers(t, owner, since);
    CursorAttained(s, owner, since);
    if r :| r in s.files && r.owner == owner && r.version == cursor && r !in t.files {
      var d :| d in t.deletions && d.row == r && d.version > s.lastVersion;
    } else if d :| d in s.deletions && d.row.owner == owner && d.version == cursor {
      assert d in t.deletions;
    }
  }

  /** Two successive windows compose to the one big window: tombstones concatenate; the changed
      rows are the first window's, unless the second buries them, followed by the second's; and
      the cursors agree. */
  lemma WindowsCompose(s: Tables, owner: nat, since: nat, writes: seq<Write>)
    requires Valid(s) && since <= s.lastVersion
    ensures var t, cursor := Run(s, writes), NewCursor(s, owner, since);
            var d1, d2 := Deleted(s.deletions, owner, since), Deleted(t.deletions, owner, cursor);
            && Deleted(t.deletions, owner, since) == d1 + d2
            && Changed(t.files, owner, since)
               == Surviving(Changed(s.files, owner, since), Ids(d2)) + Changed(t.files, owner, cursor)
            && NewCursor(t, owner, since) == NewCursor(t, owner, cursor)
  {
    var t, cursor := Run(s, writes), NewCursor(s, owner, since);
    RunLater(s, writes);
    CursorCovers(s, owner, since);
    DeletedInOrder(s, t, owner, since, cursor);
    ChangedInOrder(s, t, owner, since, cursor);
    CursorsAgree(s, t, owner, since);
  }

  lemma DeletedInOrder(s: Tables, t: Tables, owner: nat, since: nat, cursor: nat)
    requires Valid(t) && Later(s, t) && since <= cursor <= s.lastVersion
    requires forall d :: d in s.deletions && d.row.owner == owner ==> d.version <= cursor
    ensures Deleted(t.deletions, owner, since) == Deleted(s.deletions, owner, since)
        + Deleted(t.deletions, owner, cursor)
  {
    AddedTombs(s, t);
    assert t.deletions == s.deletions + t.deletions[|s.deletions|..];
    DeletedCompose(s.deletions, t.deletions[|s.deletions|..], owner, since, cursor);
  }

  lemma ChangedInOrder(s: Tables, t: Tables, owner: nat, since: nat, cursor: nat)
    requires Valid(s) && Valid(t) && Later(s, t) && since <= cursor <= s.lastVersion
    requires forall r :: r in s.files && r.owner == owner ==> r.version <= cursor
    ensures Changed(t.files, owner, since)
            == Surviving(Changed(s.files, owner, since), Ids(Deleted(t.deletions, owner, cursor)))
                + Changed(t.files, owner, cursor)
  {
    var gone, before := Ids(Deleted(t.deletions, owner, cursor)), Changed(s.files, owner, since);
    var kept, added := Surviving(before, gone), Changed(t.files, owner, cursor);
    ChangedCompose(s, t, owner, since, cursor);
    SurvivingMembers(before, gone);
    ChangedMembers(s.files, owner, since);
    ChangedMembers(t.files, owner, cursor);
    ChangedAscending(s.files, owner, since);
    ChangedAscending(t.files, owner, since);
    ChangedAscending(t.files, owner, cursor);
    SurvivingAscending(before, gone);
    AscendingJoin(kept, added, cursor);
    SameRows(Changed(t.files, owner, since), before, gone, added);
    OrderIsVersionOrder(Changed(t.files, owner, since), kept + added);
  }

  lemma SameRows(all: seq<Row>, first: seq<Row>, gone: set<nat>, second: seq<Row>)
    requires RowSet(all) == (set r | r in RowSet(first) && r.id !in gone) + RowSet(second)
    ensures forall r :: r in all <==> r in Surviving(first, gone) + second
  {
    SurvivingMembers(first, gone);
    assert forall r :: r in all <==> r in RowSet(all);
  }

  lemma DeletedCompose(before: seq<Tomb>, added: seq<Tomb>, owner: nat, since: nat, cursor: nat)
    requires since <= cursor
    requires forall d :: d in before && d.row.owner == owner ==> d.version <= cursor
    requires forall d :: d in added ==> d.version > cursor
    ensures Deleted(before + added, owner, since)
            == Deleted(before, owner, since) + Deleted(before + added, owner, cursor)
  {
    DeletedAppend(before, added, owner, since);
    DeletedAppend(before, added, owner, cursor);
    DeletedNone(before, owner, cursor);
    DeletedAll(added, owner, since, cursor);
    var none := Deleted(before, owner, cursor);
    assert none + Deleted(added, owner, cursor) == Deleted(added, owner, cursor);
  }

  lemma ChangedCompose(s: Tables, t: Tables, owner: nat, since: nat, cursor: nat)
    requires Valid(s) && Valid(t) && Later(s, t) && since <= cursor <= s.lastVersion
    requires forall r :: r in s.files && r.owner == owner ==> r.version <= cursor
    ensures RowSet(Changed(t.files, owner, since))
            == (set r | r in RowSet(Changed(s.files, owner, since))
                && r.id !in Ids(Deleted(t.deletions, owner, cursor)))
               + RowSet(Changed(t.files, owner, cursor))
  {
    var gone := Ids(Deleted(t.deletions, owner, cursor));
    DeletedMembers(t.deletions, owner, cursor);
    ChangedMembers(t.files, owner, cursor);
    ChangedMembers(t.files, owner, since);
    ChangedMembers(s.files, owner, since);
    forall r | r in s.files && r.owner == owner && r !in t.files
      ensures r.id in gone
    {
      var d :| d in t.deletions && d.row == r && d.version > s.lastVersion;
      assert d in Deleted(t.deletions, owner, cursor);
    }
    forall r | r in t.files
      ensures r.id !in gone
    {
    }
  }
}
