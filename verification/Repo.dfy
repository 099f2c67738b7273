/** The files and file_deletions tables with their one shared version sequence, as values
    (`Tables`) and as the repository object that updates them (`FileRepo`). */
module Repo {
  import opened Basics

  /** A row of files. `body` stands for the size and sha256 columns' subject: the bytes that
      were uploaded, which is also what a download returns. `hash` is the sha256 column;
      it is `Unhashed` on rows older than that column. */
  datatype Row = Row(id: nat, owner: nat, name: string, body: Content, hash: Hash, version: nat)

  /** A row of file_deletions. The table copies the id, owner and name of the row it buries;
      the rest of `row` is history that only specifications read. */
  datatype Tomb = Tomb(row: Row, version: nat)

  datatype Tables = Tables(files: seq<Row>, deletions: seq<Tomb>, lastId: nat, lastVersion: nat)

  const EMPTY_TABLES := Tables([], [], 0, 0)

  // ---- Queries ----------------------------------------------------------------------------

  function FindId(files: seq<Row>, owner: nat, id: nat): (r: Option<Row>)
    ensures r.Some? ==> r.value in files && r.value.id == id && r.value.owner == owner
    ensures r.None? ==> forall f :: f in files ==> f.id != id || f.owner != owner
  {
    if files == [] then None
    else if files[0].id == id && files[0].owner == owner then Some(files[0])
    else FindId(files[1..], owner, id)
  }

  /** The live row an owner has under a name. */
  function FindName(files: seq<Row>, owner: nat, name: string): (r: Option<Row>)
    ensures r.Some? ==> r.value in files && r.value.name == name && r.value.owner == owner
    ensures r.None? ==> forall f :: f in files ==> f.name != name || f.owner != owner
  {
    if files == [] then None
    else if files[0].name == name && files[0].owner == owner then Some(files[0])
    else FindName(files[1..], owner, name)
  }

  function Changed(files: seq<Row>, owner: nat, since: nat): seq<Row> {
    if files == [] then []
    else
      var front, last := files[..|files| - 1], files[|files| - 1];
      Changed(front, owner, since) + if last.owner == owner && last.version > since then [last] else []
  }

  function Deleted(deletions: seq<Tomb>, owner: nat, since: nat): seq<Tomb> {
    if deletions == [] then []
    else
      var front, last := deletions[..|deletions| - 1], deletions[|deletions| - 1];
      Deleted(front, owner, since) + if last.row.owner == owner && last.version > since then [last] else []
  }

  function MaxVersion(rows: seq<Row>, start: nat): nat {
    if rows == [] then start
    else
      var m := MaxVersion(rows[..|rows| - 1], start);
      if rows[|rows| - 1].version > m then rows[|rows| - 1].version else m
  }

  function MaxTombVersion(tombs: seq<Tomb>, start: nat): nat {
    if tombs == [] then start
    else
      var m := MaxTombVersion(tombs[..|tombs| - 1], start);
      if tombs[|tombs| - 1].version > m then tombs[|tombs| - 1].version else m
  }

  /** The cursor that ListChangedSince returns. */
  function NewCursor(s: Tables, owner: nat, since: nat): nat {
    MaxTombVersion(Deleted(s.deletions, owner, since),
                   MaxVersion(Changed(s.files, owner, since), since))
  }

  // ---- Updates ----------------------------------------------------------------------------

  function Without(files: seq<Row>, id: nat): seq<Row> {
    if files == [] then []
    else
      var front, last := files[..|files| - 1], files[|files| - 1];
      Without(front, id) + if last.id == id then [] else [last]
  }

  function NewRow(s: Tables, owner: nat, name: string, body: Content): Row {
    Row(s.lastId + 1, owner, name, body, Digest(body), s.lastVersion + 1)
  }

  /** INSERT INTO files, once the (owner, name) index has let it through. */
  function Insert(s: Tables, owner: nat, name: string, body: Content): Tables {
    Tables(s.files + [NewRow(s, owner, name, body)], s.deletions, s.lastId + 1, s.lastVersion + 1)
  }

  /** Row to tombstone, in one transaction; a missing row is ErrNotFound and changes nothing. */
  function Bury(s: Tables, owner: nat, id: nat): Tables {
    match FindId(s.files, owner, id)
    case None => s
    case Some(row) =>
      Tables(Without(s.files, id), s.deletions + [Tomb(row, s.lastVersion + 1)], s.lastId, s.lastVersion + 1)
  }

  lemma {:induction false} ChangedMembers(files: seq<Row>, owner: nat, since: nat)
    ensures forall r :: r in Changed(files, owner, since) <==> r in files && r.owner == owner && r.version > since
  {
    if files != [] {
      var front, last := files[..|files| - 1], files[|files| - 1];
      ChangedMembers(front, owner, since);
      assert forall r :: r in files <==> r in front || r == last;
    }
  }

  lemma {:induction false} DeletedMembers(deletions: seq<Tomb>, owner: nat, since: nat)
    ensures forall t :: t in Deleted(deletions, owner, since) <==>
              t in deletions && t.row.owner == owner && t.version > since
  {
    if deletions != [] {
      var front, last := deletions[..|deletions| - 1], deletions[|deletions| - 1];
      DeletedMembers(front, owner, since);
      assert forall t :: t in deletions <==> t in front || t == last;
    }
  }

  lemma {:induction false} WithoutMembers(files: seq<Row>, id: nat)
    ensures forall r :: r in Without(files, id) <==> r in files && r.id != id
  {
    if files != [] {
      var front, last := files[..|files| - 1], files[|files| - 1];
      WithoutMembers(front, id);
      assert forall r :: r in files <==> r in front || r == last;
    }
  }

  // ---- Invariants -------------------------------------------------------------------------

  ghost predicate UniqueNames(files: seq<Row>) {
    forall a, b :: a in files && b in files && a.owner == b.owner && a.name == b.name ==> a == b
  }

  ghost predicate UniqueIds(files: seq<Row>) {
    forall a, b :: a in files && b in files && a.id == b.id ==> a == b
  }

  /** Rows stand in insertion order, so ORDER BY version is the order of the sequence. */
  ghost predicate Ascending(files: seq<Row>) {
    forall i, j :: 0 <= i < j < |files| ==> files[i].version < files[j].version
  }

  ghost predicate TombsAscending(tombs: seq<Tomb>) {
    forall i, j :: 0 <= i < j < |tombs| ==> tombs[i].version < tombs[j].version
  }

  ghost predicate Valid(s: Tables) {
    && (forall r :: r in s.files ==> 1 <= r.id <= s.lastId && 1 <= r.version <= s.lastVersion)
    && (forall t :: t in s.deletions ==> t.version <= s.lastVersion && t.row.id <= s.lastId)
    && (forall t, r :: t in s.deletions && r in s.files ==> t.row.id != r.id)
    && UniqueIds(s.files) && UniqueNames(s.files)
    && Ascending(s.files) && TombsAscending(s.deletions)
  }

  ghost predicate Hashed(files: seq<Row>) {
    forall r :: r in files ==> r.hash == Digest(r.body)
  }

  lemma {:induction false} WithoutAscending(files: seq<Row>, id: nat)
    requires Ascending(files)
    ensures Ascending(Without(files, id))
  {
    if files != [] {
      var front, last := files[..|files| - 1], files[|files| - 1];
      WithoutAscending(front, id);
      WithoutMembers(front, id);
      forall r | r in Without(front, id)
        ensures r.version < last.version
      {
        assert r in front;
      }
    }
  }

  lemma {:induction false} ChangedAscending(files: seq<Row>, owner: nat, since: nat)
    requires Ascending(files)
    ensures Ascending(Changed(files, owner, since))
  {
    if files != [] {
      var front, last := files[..|files| - 1], files[|files| - 1];
      ChangedAscending(front, owner, since);
      ChangedMembers(front, owner, since);
      forall r | r in Changed(front, owner, since)
        ensures r.version < last.version
      {
        assert r in front;
      }
    }
  }

  lemma {:induction false} DeletedAscending(tombs: seq<Tomb>, owner: nat, since: nat)
    requires TombsAscending(tombs)
    ensures TombsAscending(Deleted(tombs, owner, since))
  {
    if tombs != [] {
      var front, last := tombs[..|tombs| - 1], tombs[|tombs| - 1];
      DeletedAscending(front, owner, since);
      DeletedMembers(front, owner, since);
      forall t | t in Deleted(front, owner, since)
        ensures t.version < last.version
      {
        assert t in front;
      }
    }
  }

  lemma InsertValid(s: Tables, owner: nat, name: string, body: Content)
    requires Valid(s) && FindName(s.files, owner, name).None?
    ensures Valid(Insert(s, owner, name, body))
    ensures Hashed(s.files) ==> Hashed(Insert(s, owner, name, body).files)
  {
    var out, row := Insert(s, owner, name, body), NewRow(s, owner, name, body);
    assert forall r :: r in out.files <==> r in s.files || r == row;
    assert forall i :: 0 <= i < |s.files| ==> s.files[i] in s.files;
  }

  lemma BuryValid(s: Tables, owner: nat, id: nat)
    requires Valid(s)
    ensures Valid(Bury(s, owner, id))
    ensures Hashed(s.files) ==> Hashed(Bury(s, owner, id).files)
  {
    var out := Bury(s, owner, id);
    if FindId(s.files, owner, id).Some? {
      var t := Tomb(FindId(s.files, owner, id).value, s.lastVersion + 1);
      WithoutAscending(s.files, id);
      WithoutMembers(s.files, id);
      assert forall d :: d in out.deletions <==> d in s.deletions || d == t;
      assert forall i :: 0 <= i < |s.deletions| ==> s.deletions[i] in s.deletions;
    }
  }

  lemma {:induction false} MaxVersionBounds(rows: seq<Row>, start: nat)
    ensures MaxVersion(rows, start) >= start
    ensures forall r :: r in rows ==> r.version <= MaxVersion(rows, start)
    ensures MaxVersion(rows, start) == start || exists r :: r in rows && r.version == MaxVersion(rows, start)
  {
    if rows != [] {
      var front, last := rows[..|rows| - 1], rows[|rows| - 1];
      MaxVersionBounds(front, start);
      assert forall r :: r in rows <==> r in front || r == last;
    }
  }

  lemma {:induction false} MaxTombVersionBounds(tombs: seq<Tomb>, start: nat)
    ensures MaxTombVersion(tombs, start) >= start
    ensures forall t :: t in tombs ==> t.version <= MaxTombVersion(tombs, start)
    ensures MaxTombVersion(tombs, start) == start || exists t :: t in tombs && t.version == MaxTombVersion(tombs, start)
  {
    if tombs != [] {
      var front, last := tombs[..|tombs| - 1], tombs[|tombs| - 1];
      MaxTombVersionBounds(front, start);
      assert forall t :: t in tombs <==> t in front || t == last;
    }
  }

  /** The returned cursor is at or above everything of the owner's, and stays within the
      sequence, so nothing recorded later can fall at or below it. */
  lemma CursorCovers(s: Tables, owner: nat, since: nat)
    requires Valid(s)
    ensures NewCursor(s, owner, since) >= since
    ensures forall r :: r in s.files && r.owner == owner ==> r.version <= NewCursor(s, owner, since)
    ensures forall t :: t in s.deletions && t.row.owner == owner ==> t.version <= NewCursor(s, owner, since)
    ensures since <= s.lastVersion ==> NewCursor(s, owner, since) <= s.lastVersion
  {
    ChangedMembers(s.files, owner, since);
    DeletedMembers(s.deletions, owner, since);
    MaxVersionBounds(Changed(s.files, owner, since), since);
    MaxTombVersionBounds(Deleted(s.deletions, owner, since), MaxVersion(Changed(s.files, owner, since), since));
  }

  // ---- The repository object --------------------------------------------------------------

  class FileRepo {
    var files: seq<Row>
    var deletions: seq<Tomb>
    var lastId: nat
    var lastVersion: nat

    function State(): Tables
      reads this
    {
      Tables(files, deletions, lastId, lastVersion)
    }

    constructor ()
      ensures State() == EMPTY_TABLES && Valid(State())
    {
      files, deletions, lastId, lastVersion := [], [], 0, 0;
    }

    /** Fails with the unique-violation error exactly when the owner already has the name. */
    method Create(owner: nat, name: string, body: Content) returns (created: Option<Row>)
      requires Valid(State())
      modifies this
      ensures Valid(State())
      ensures old(FindName(files, owner, name)).Some? ==> created.None? && State() == old(State())
      ensures old(FindName(files, owner, name)).None? ==>
                && created == Some(Row(old(lastId) + 1, owner, name, body, Digest(body), old(lastVersion) + 1))
                && files == old(files) + [created.value] && deletions == old(deletions)
                && lastId == old(lastId) + 1 && lastVersion == old(lastVersion) + 1
                && State() == old(Insert(State(), owner, name, body))
    {
      if FindName(files, owner, name).Some? {
        return None;
      }
      InsertValid(State(), owner, name, body);
      var row := NewRow(State(), owner, name, body);
      files, lastId, lastVersion := files + [row], lastId + 1, lastVersion + 1;
      created := Some(row);
    }

    method Delete(owner: nat, id: nat) returns (found: bool)
      requires Valid(State())
      modifies this
      ensures Valid(State())
      ensures found <==> exists r :: r in old(files) && r.owner == owner && r.id == id
      ensures found ==>
                && (forall r :: r in files <==> r in old(files) && r.id != id)
                && lastVersion == old(lastVersion) + 1 && lastId == old(lastId)
                && |deletions| == |old(deletions)| + 1 && deletions[..|deletions| - 1] == old(deletions)
                && deletions[|deletions| - 1].version == lastVersion && deletions[|deletions| - 1].row in old(files)
                && deletions[|deletions| - 1].row.id == id && deletions[|deletions| - 1].row.owner == owner
      ensures !found ==> State() == old(State())
      ensures State() == old(Bury(State(), owner, id))
    {
      WithoutMembers(files, id);
      BuryValid(State(), owner, id);
      match FindId(files, owner, id)
      case None =>
        return false;
      case Some(row) =>
        lastVersion := lastVersion + 1;
        deletions := deletions + [Tomb(row, lastVersion)];
        files := Without(files, id);
        return true;
    }

    /** Two loops over the two result sets, each raising the version seen. */
    method ListChangedSince(owner: nat, since: nat)
      returns (changed: seq<Row>, deleted: seq<Tomb>, currentVersion: nat)
      ensures changed == Changed(files, owner, since)
      ensures deleted == Deleted(deletions, owner, since)
      ensures currentVersion == NewCursor(State(), owner, since)
      ensures Valid(State()) ==> Ascending(changed) && TombsAscending(deleted)
    {
      if Valid(State()) {
        ChangedAscending(files, owner, since);
        DeletedAscending(deletions, owner, since);
      }
      var fileRows := Changed(files, owner, since);
      var deletionRows := Deleted(deletions, owner, since);
      changed, deleted, currentVersion := [], [], since;
      for i := 0 to |fileRows|
        invariant changed == fileRows[..i] && currentVersion == MaxVersion(fileRows[..i], since)
      {
        assert fileRows[..i + 1][..i] == fileRows[..i];
        changed := changed + [fileRows[i]];
        if fileRows[i].version > currentVersion {
          currentVersion := fileRows[i].version;
        }
      }
      assert fileRows[..|fileRows|] == fileRows;
      for i := 0 to |deletionRows|
        invariant deleted == deletionRows[..i]
        invariant currentVersion == MaxTombVersion(deletionRows[..i], MaxVersion(fileRows, since))
      {
        assert deletionRows[..i + 1][..i] == deletionRows[..i];
        deleted := deleted + [deletionRows[i]];
        if deletionRows[i].version > currentVersion {
          currentVersion := deletionRows[i].version;
        }
      }
      assert deletionRows[..|deletionRows|] == deletionRows;
    }
  }
}
