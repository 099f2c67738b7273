/** File bytes and metadata rows are written in separate steps by overlapping Create and Delete
    calls; no row ever dangles, and when all is quiet nothing is orphaned. */
module Storage {
  import opened Basics
  import opened FileNames
  import opened Repo
  import opened FileService

  /** A Create or Delete call between two of its steps. */
  datatype Call =
    | Saved(owner: nat, base: string, body: Content, key: string, attempt: nat)
    | Failed(key: string)
    | Found(owner: nat, id: nat, key: string)
    | RowGone(key: string)
    | Done

  /** Tables, their storage_key column by row id, the blobs under their keys, and the calls. */
  datatype Server = Server(tables: Tables, keyOf: map<nat, string>, blobs: map<string, Content>, calls: seq<Call>)

  /** `error` is a failure of the insert that is not a name conflict; `ok` says whether storage
      really deleted. A failed Save leaves no file behind (it renames a finished temporary one),
      so it is no step; nor is a call that stops at its first check. */
  datatype Step =
    | Save(owner: nat, filename: string, body: Content, key: string)
    | TryInsert(call: nat, error: bool)
    | CleanUp(call: nat, ok: bool)
    | Lookup(owner: nat, id: nat)
    | DeleteRow(call: nat)
    | DeleteBlob(call: nat, ok: bool)

  predicate Holds(c: Call, key: string) {
    match c
    case Saved(_, _, _, k, _) => k == key
    case Failed(k) => k == key
    case RowGone(k) => k == key
    case Found(_, _, _) => false
    case Done => false
  }

  predicate InFlight(c: Call) {
    c.Saved? || c.Failed? || c.RowGone?
  }

  /** Keys are derived from the owner and the time in nanoseconds: a new one is unused. */
  ghost predicate FreshKey(x: Server, key: string) {
    && key !in x.blobs
    && (forall i :: 0 <= i < |x.calls| ==> !Holds(x.calls[i], key))
    && (forall id :: id in x.keyOf ==> x.keyOf[id] != key)
  }

  ghost predicate Enabled(x: Server, step: Step) {
    match step
    case Save(_, filename, _, key) => filename != "" && PlainName(Base(filename)) && FreshKey(x, key)
    case TryInsert(i, _) => i < |x.calls| && x.calls[i].Saved?
    case CleanUp(i, _) => i < |x.calls| && x.calls[i].Failed?
    case Lookup(owner, id) => FindId(x.tables.files, owner, id).Some? && id in x.keyOf
    case DeleteRow(i) => i < |x.calls| && x.calls[i].Found?
    case DeleteBlob(i, _) => i < |x.calls| && x.calls[i].RowGone?
  }

  /** One attempt to insert the row: another error or a spent retry budget leads to cleaning
      up, a name conflict to the next numbered name. */
  function Insertion(x: Server, i: nat, error: bool): Server
    requires i < |x.calls| && x.calls[i].Saved?
  {
    var Saved(owner, base, body, key, attempt) := x.calls[i];
    if error then x.(calls := x.calls[i := Failed(key)])
    else if Taken(x.tables.files, owner, Candidate(base, attempt)) then
      if attempt < MAX_NAME_DEDUP_ATTEMPTS then x.(calls := x.calls[i := Saved(owner, base, body, key, attempt + 1)])
      else x.(calls := x.calls[i := Failed(key)])
    else Inserted(x, i, Candidate(base, attempt))
  }

  function Inserted(x: Server, i: nat, name: string): Server
    requires i < |x.calls| && x.calls[i].Saved?
  {
    Server(Insert(x.tables, x.calls[i].owner, name, x.calls[i].body), x.keyOf[x.tables.lastId + 1 := x.calls[i].key],
           x.blobs, x.calls[i := Done])
  }

  function Deletion(x: Server, i: nat): Server
    requires i < |x.calls| && x.calls[i].Found?
  {
    var Found(owner, id, key) := x.calls[i];
    if FindId(x.tables.files, owner, id).None? then x.(calls := x.calls[i := Done])
    else Server(Bury(x.tables, owner, id), x.keyOf - {id}, x.blobs, x.calls[i := RowGone(key)])
  }

  /** The call lets go of its key. */
  function Release(x: Server, i: nat, key: string, ok: bool): Server
    requires i < |x.calls|
  {
    x.(blobs := if ok then x.blobs - {key} else x.blobs, calls := x.calls[i := Done])
  }

  ghost function Take(x: Server, step: Step): Server
    requires Enabled(x, step)
  {
    match step
    case Save(owner, filename, body, key) =>
      x.(blobs := x.blobs[key := body], calls := x.calls + [Saved(owner, Base(filename), body, key, 0)])
    case TryInsert(i, error) => Insertion(x, i, error)
    case CleanUp(i, ok) => Release(x, i, x.calls[i].key, ok)
    case Lookup(owner, id) => x.(calls := x.calls + [Found(owner, id, x.keyOf[id])])
    case DeleteRow(i) => Deletion(x, i)
    case DeleteBlob(i, ok) => Release(x, i, x.calls[i].key, ok)
  }

  // ---- Invariants -------------------------------------------------------------------------

  /** Every live row has its bytes in storage, under its key, with its size and hash. */
  ghost predicate NoDanglingRow(x: Server) {
    forall r :: r in x.tables.files ==>
      r.id in x.keyOf && x.keyOf[r.id] in x.blobs && x.blobs[x.keyOf[r.id]] == r.body && r.hash == Digest(r.body)
  }

  /** The key column belongs to the live rows, and is unique. */
  ghost predicate KeysOk(x: Server) {
    && (forall id :: id in x.keyOf ==> id <= x.tables.lastId && exists r :: r in x.tables.files && r.id == id)
    && (forall a, b :: a in x.keyOf && b in x.keyOf && x.keyOf[a] == x.keyOf[b] ==> a == b)
  }

  /** A key is held by at most one call, and then by no row. */
  ghost predicate HeldOnce(x: Server) {
    && (forall i, id :: 0 <= i < |x.calls| && id in x.keyOf ==> !Holds(x.calls[i], x.keyOf[id]))
    && (forall i, j :: 0 <= i < |x.calls| && 0 <= j < |x.calls| && i != j && InFlight(x.calls[j]) ==>
          !Holds(x.calls[i], x.calls[j].key))
  }

  /** What a call knows between its steps. */
  ghost predicate CallOk(x: Server, c: Call) {
    match c
    case Saved(_, base, body, key, attempt) =>
      key in x.blobs && x.blobs[key] == body && PlainName(base) && attempt <= MAX_NAME_DEDUP_ATTEMPTS
    case Found(_, id, key) => id <= x.tables.lastId && (id in x.keyOf ==> x.keyOf[id] == key)
    case Failed(key) => key in x.blobs
    case RowGone(key) => key in x.blobs
    case Done => true
  }

  ghost predicate Ok(x: Server) {
    && Valid(x.tables) && NoDanglingRow(x) && KeysOk(x) && HeldOnce(x)
    && forall i :: 0 <= i < |x.calls| ==> CallOk(x, x.calls[i])
  }

  /** Somebody answers for the key: a live row, or a call still in flight. */
  ghost predicate Answered(x: Server, key: string) {
    (exists id :: id in x.keyOf && x.keyOf[id] == key) || (exists i :: 0 <= i < |x.calls| && Holds(x.calls[i], key))
  }

  /** Somebody answers for every stored blob. */
  ghost predicate NoOrphan(x: Server) {
    forall key :: key in x.blobs ==> Answered(x, key)
  }

  ghost predicate DeletesSucceed(step: Step) {
    (step.CleanUp? || step.DeleteBlob?) ==> step.ok
  }

  // ---- Every step keeps them --------------------------------------------------------------

  lemma SaveOk(x: Server, step: Step)
    requires Ok(x) && Enabled(x, step) && step.Save?
    ensures Ok(Take(x, step))
  {
    SaveHeld(x, step);
    SaveCalls(x, step);
  }

  lemma SaveHeld(x: Server, step: Step)
    requires HeldOnce(x) && Enabled(x, step) && step.Save?
    ensures HeldOnce(Take(x, step))
  {
  }

  lemma SaveCalls(x: Server, step: Step)
    requires Enabled(x, step) && step.Save?
    requires forall i :: 0 <= i < |x.calls| ==> CallOk(x, x.calls[i])
    ensures forall i :: 0 <= i < |Take(x, step).calls| ==> CallOk(Take(x, step), Take(x, step).calls[i])
  {
  }

  lemma InsertionOk(x: Server, i: nat, error: bool)
    requires Ok(x) && i < |x.calls| && x.calls[i].Saved?
    ensures Ok(Insertion(x, i, error))
  {
    var Saved(owner, base, body, key, attempt) := x.calls[i];
    var name := Candidate(base, attempt);
    if error || Taken(x.tables.files, owner, name) {
      assert CallOk(x, x.calls[i]);
      var c := if error || attempt == MAX_NAME_DEDUP_ATTEMPTS then Failed(key)
               else Saved(owner, base, body, key, attempt + 1);
      CallMoved(x, i, c);
      InsertionMoves(x, i, error, c);
    } else {
      InsertedOk(x, i, name);
      InsertionInserts(x, i, name);
    }
  }

  lemma InsertionMoves(x: Server, i: nat, error: bool, c: Call)
    requires i < |x.calls| && x.calls[i].Saved? && x.calls[i].attempt <= MAX_NAME_DEDUP_ATTEMPTS
    requires error || Taken(x.tables.files, x.calls[i].owner, Candidate(x.calls[i].base, x.calls[i].attempt))
    requires c == if error || x.calls[i].attempt == MAX_NAME_DEDUP_ATTEMPTS then Failed(x.calls[i].key)
                  else x.calls[i].(attempt := x.calls[i].attempt + 1)
    ensures Insertion(x, i, error) == x.(calls := x.calls[i := c])
  {
  }

  lemma InsertionInserts(x: Server, i: nat, name: string)
    requires i < |x.calls| && x.calls[i].Saved? && name == Candidate(x.calls[i].base, x.calls[i].attempt)
    requires !Taken(x.tables.files, x.calls[i].owner, name)
    ensures Insertion(x, i, false) == Inserted(x, i, name)
  {
  }

  /** A call may move on while it holds on to its key. */
  lemma CallMoved(x: Server, i: nat, c: Call)
    requires Ok(x) && i < |x.calls| && x.calls[i].Saved? && CallOk(x, c)
    requires InFlight(c) && c.key == x.calls[i].key
    ensures Ok(x.(calls := x.calls[i := c]))
  {
  }

  lemma InsertedOk(x: Server, i: nat, name: string)
    requires Ok(x) && i < |x.calls| && x.calls[i].Saved?
    requires !Taken(x.tables.files, x.calls[i].owner, name)
    ensures Ok(Inserted(x, i, name))
  {
    assert CallOk(x, x.calls[i]);
    InsertValid(x.tables, x.calls[i].owner, name, x.calls[i].body);
    InsertedKeys(x, i, name);
    InsertedRows(x, i, name);
    InsertedCalls(x, i, name);
  }

  lemma InsertedRows(x: Server, i: nat, name: string)
    requires NoDanglingRow(x) && KeysOk(x) && i < |x.calls| && x.calls[i].Saved? && CallOk(x, x.calls[i])
    ensures NoDanglingRow(Inserted(x, i, name))
  {
  }

  lemma InsertedCalls(x: Server, i: nat, name: string)
    requires i < |x.calls| && x.calls[i].Saved?
    requires forall j :: 0 <= j < |x.calls| ==> CallOk(x, x.calls[j])
    ensures forall j :: 0 <= j < |x.calls| ==> CallOk(Inserted(x, i, name), Inserted(x, i, name).calls[j])
  {
  }

  lemma InsertedKeys(x: Server, i: nat, name: string)
    requires KeysOk(x) && HeldOnce(x) && i < |x.calls| && x.calls[i].Saved?
    ensures KeysOk(Inserted(x, i, name)) && HeldOnce(Inserted(x, i, name))
  {
  }

  lemma LookupOk(x: Server, step: Step)
    requires Ok(x) && Enabled(x, step) && step.Lookup?
    ensures Ok(Take(x, step))
  {
    LookupHeld(x, step);
    LookupCalls(x, step);
  }

  lemma LookupHeld(x: Server, step: Step)
    requires HeldOnce(x) && Enabled(x, step) && step.Lookup?
    ensures HeldOnce(Take(x, step))
  {
    var y := Take(x, step);
    assert forall key :: !Holds(y.calls[|x.calls|], key);
  }

  lemma LookupCalls(x: Server, step: Step)
    requires Valid(x.tables) && Enabled(x, step) && step.Lookup?
    requires forall i :: 0 <= i < |x.calls| ==> CallOk(x, x.calls[i])
    ensures forall i :: 0 <= i < |Take(x, step).calls| ==> CallOk(Take(x, step), Take(x, step).calls[i])
  {
    var y := Take(x, step);
    forall i | 0 <= i < |y.calls|
      ensures CallOk(y, y.calls[i])
    {
      if i < |x.calls| {
        assert CallOk(x, x.calls[i]) && y.calls[i] == x.calls[i];
      }
    }
  }

  lemma DeletionOk(x: Server, i: nat)
    requires Ok(x) && i < |x.calls| && x.calls[i].Found?
    ensures Ok(Deletion(x, i))
  {
    var Found(owner, id, key) := x.calls[i];
    if FindId(x.tables.files, owner, id).Some? {
      assert CallOk(x, x.calls[i]);
      BuryValid(x.tables, owner, id);
      DeletedRows(x, i);
      DeletedKeys(x, i);
      DeletedCalls(x, i);
    } else {
      CallEnds(x, i);
    }
  }

  lemma CallEnds(x: Server, i: nat)
    requires Ok(x) && i < |x.calls| && x.calls[i].Found?
    ensures Ok(x.(calls := x.calls[i := Done]))
  {
    var y := x.(calls := x.calls[i := Done]);
    forall j | 0 <= j < |y.calls|
      ensures CallOk(y, y.calls[j])
    {
      assert CallOk(x, x.calls[j]);
    }
  }

  lemma DeletedRows(x: Server, i: nat)
    requires UniqueIds(x.tables.files) && NoDanglingRow(x) && i < |x.calls| && x.calls[i].Found?
    requires FindId(x.tables.files, x.calls[i].owner, x.calls[i].id).Some?
    ensures NoDanglingRow(Deletion(x, i))
  {
    WithoutMembers(x.tables.files, x.calls[i].id);
  }

  lemma DeletedKeys(x: Server, i: nat)
    requires KeysOk(x) && HeldOnce(x) && NoDanglingRow(x) && i < |x.calls| && x.calls[i].Found? && CallOk(x, x.calls[i])
    requires FindId(x.tables.files, x.calls[i].owner, x.calls[i].id).Some?
    ensures KeysOk(Deletion(x, i)) && HeldOnce(Deletion(x, i))
  {
    var y, id := Deletion(x, i), x.calls[i].id;
    WithoutMembers(x.tables.files, id);
    assert id in x.keyOf && x.keyOf[id] == x.calls[i].key;
    forall other | other in y.keyOf
      ensures other <= y.tables.lastId && exists r :: r in y.tables.files && r.id == other
    {
      var r :| r in x.tables.files && r.id == other;
      assert r in y.tables.files;
    }
    DeletedHeld(x, i);
  }

  lemma DeletedHeld(x: Server, i: nat)
    requires KeysOk(x) && HeldOnce(x) && i < |x.calls| && x.calls[i].Found?
    requires FindId(x.tables.files, x.calls[i].owner, x.calls[i].id).Some?
    requires x.calls[i].id in x.keyOf && x.keyOf[x.calls[i].id] == x.calls[i].key
    ensures HeldOnce(Deletion(x, i))
  {
  }

  lemma DeletedCalls(x: Server, i: nat)
    requires NoDanglingRow(x) && i < |x.calls| && x.calls[i].Found?
    requires forall j :: 0 <= j < |x.calls| ==> CallOk(x, x.calls[j])
    requires FindId(x.tables.files, x.calls[i].owner, x.calls[i].id).Some?
    ensures forall j :: 0 <= j < |x.calls| ==> CallOk(Deletion(x, i), Deletion(x, i).calls[j])
  {
    var y := Deletion(x, i);
    assert CallOk(x, x.calls[i]);
    forall j | 0 <= j < |y.calls|
      ensures CallOk(y, y.calls[j])
    {
      assert CallOk(x, x.calls[j]);
    }
  }

  lemma ReleaseOk(x: Server, i: nat, ok: bool)
    requires Ok(x) && i < |x.calls| && (x.calls[i].Failed? || x.calls[i].RowGone?)
    ensures Ok(Release(x, i, x.calls[i].key, ok))
  {
    var key := x.calls[i].key;
    var y := Release(x, i, key, ok);
    assert Holds(x.calls[i], key);
    forall j | 0 <= j < |y.calls|
      ensures CallOk(y, y.calls[j])
    {
      assert CallOk(x, x.calls[j]);
      assert j != i ==> !Holds(x.calls[j], key);
    }
  }

  lemma StepOk(x: Server, step: Step)
    requires Ok(x) && Enabled(x, step)
    ensures Ok(Take(x, step))
  {
    match step
    case Save(_, _, _, _) => SaveOk(x, step);
    case TryInsert(i, error) => InsertionOk(x, i, error);
    case CleanUp(i, ok) => ReleaseOk(x, i, ok);
    case Lookup(_, _) => LookupOk(x, step);
    case DeleteRow(i) => DeletionOk(x, i);
    case DeleteBlob(i, ok) => ReleaseOk(x, i, ok);
  }

  /** As long as storage deletes when it is told to, nothing is orphaned. */
  lemma StepKeepsNoOrphan(x: Server, step: Step)
    requires Ok(x) && Enabled(x, step) && NoOrphan(x) && DeletesSucceed(step)
    ensures NoOrphan(Take(x, step))
  {
    var y := Take(x, step);
    forall key | key in y.blobs
      ensures Answered(y, key)
    {
      KeyStaysAnswered(x, step, key);
    }
  }

  lemma KeyStaysAnswered(x: Server, step: Step, key: string)
    requires Ok(x) && Enabled(x, step) && NoOrphan(x) && DeletesSucceed(step)
    requires key in Take(x, step).blobs
    ensures Answered(Take(x, step), key)
  {
    if key !in x.blobs {
      SavedStays(x, step, key);
    } else if i :| 0 <= i < |x.calls| && Holds(x.calls[i], key) {
      HolderStays(x, step, i, key);
    } else {
      var id: nat :| id in x.keyOf && x.keyOf[id] == key;
      RowStays(x, step, id, key);
    }
  }

  lemma SavedStays(x: Server, step: Step, key: string)
    requires Enabled(x, step) && key !in x.blobs && key in Take(x, step).blobs
    ensures Answered(Take(x, step), key)
  {
    assert Holds(Take(x, step).calls[|x.calls|], key);
  }

  lemma HolderStays(x: Server, step: Step, i: nat, key: string)
    requires Enabled(x, step) && DeletesSucceed(step)
    requires key in Take(x, step).blobs && i < |x.calls| && Holds(x.calls[i], key)
    ensures Answered(Take(x, step), key)
  {
    if step.TryInsert? && step.call == i {
      HolderTries(x, i, step.error);
    } else {
      assert Holds(Take(x, step).calls[i], key);
    }
  }

  lemma HolderTries(x: Server, i: nat, error: bool)
    requires i < |x.calls| && x.calls[i].Saved?
    ensures Answered(Insertion(x, i, error), x.calls[i].key)
  {
    var y, key := Insertion(x, i, error), x.calls[i].key;
    if !Holds(y.calls[i], key) {
      assert x.tables.lastId + 1 in y.keyOf && y.keyOf[x.tables.lastId + 1] == key;
    }
  }

  lemma RowStays(x: Server, step: Step, id: nat, key: string)
    requires Ok(x) && Enabled(x, step) && id in x.keyOf && x.keyOf[id] == key
    ensures Answered(Take(x, step), key)
  {
    var y := Take(x, step);
    if id in y.keyOf {
      assert id <= x.tables.lastId;
      assert y.keyOf[id] == key;
    } else {
      assert CallOk(x, x.calls[step.call]);
      assert Holds(y.calls[step.call], key);
    }
  }

  // ---- Whole runs -------------------------------------------------------------------------

  ghost predicate IsRun(x: Server, steps: seq<Step>)
    requires Ok(x)
    decreases |steps|
  {
    steps == [] || (Enabled(x, steps[0]) && (StepOk(x, steps[0]); IsRun(Take(x, steps[0]), steps[1..])))
  }

  ghost function EndOf(x: Server, steps: seq<Step>): Server
    requires Ok(x) && IsRun(x, steps)
    decreases |steps|
  {
    if steps == [] then x else (StepOk(x, steps[0]); EndOf(Take(x, steps[0]), steps[1..]))
  }

  ghost predicate Quiet(x: Server) {
    forall i :: 0 <= i < |x.calls| ==> !InFlight(x.calls[i])
  }

  /** Under every interleaving of the steps of any number of Create and Delete calls, whatever
      storage deletes fail, no row dangles; and if none fails, then whenever no call is in
      flight storage holds exactly the live rows' keys, failed creates included. */
  lemma {:induction false} StorageConsistent(x: Server, steps: seq<Step>)
    requires Ok(x) && IsRun(x, steps)
    ensures Ok(EndOf(x, steps)) && NoDanglingRow(EndOf(x, steps))
    ensures NoOrphan(x) && (forall i :: 0 <= i < |steps| ==> DeletesSucceed(steps[i])) ==>
              NoOrphan(EndOf(x, steps)) && (Quiet(EndOf(x, steps)) ==> KeysAreRows(EndOf(x, steps)))
    decreases |steps|
  {
    if steps == [] {
      if NoOrphan(x) && Quiet(x) {
        QuietExact(x);
      }
    } else {
      StepOk(x, steps[0]);
      if NoOrphan(x) && DeletesSucceed(steps[0]) {
        StepKeepsNoOrphan(x, steps[0]);
      }
      StorageConsistent(Take(x, steps[0]), steps[1..]);
    }
  }

  /** Storage holds the key of every live row, with its bytes, and nothing else. */
  ghost predicate KeysAreRows(x: Server) {
    && NoDanglingRow(x)
    && (forall key :: key in x.blobs ==> exists r :: r in x.tables.files && r.id in x.keyOf && x.keyOf[r.id] == key)
  }

  lemma QuietExact(x: Server)
    requires Ok(x) && NoOrphan(x) && Quiet(x)
    ensures KeysAreRows(x)
  {
  }

  /** An orphan appears exactly when storage fails to delete a blob it holds. */
  lemma OrphanIff(x: Server, step: Step)
    requires Ok(x) && Enabled(x, step) && NoOrphan(x)
    ensures NoOrphan(Take(x, step)) <==> DeletesSucceed(step)
  {
    if DeletesSucceed(step) {
      StepKeepsNoOrphan(x, step);
    } else {
      var c := x.calls[step.call];
      assert CallOk(x, c) && Holds(c, c.key);
      var y := Take(x, step);
      assert c.key in y.blobs;
      forall j | 0 <= j < |y.calls|
        ensures !Holds(y.calls[j], c.key)
      {
        assert j != step.call ==> y.calls[j] == x.calls[j];
      }
    }
  }

  // ---- One call alone ---------------------------------------------------------------------

  /** The call's next tries to insert its row, no other step in between. */
  function TryOn(x: Server, i: nat, tries: nat): Server
    requires i < |x.calls|
    decreases tries, x
  {
    if tries == 0 || !x.calls[i].Saved? then x else TryOn(Insertion(x, i, false), i, tries - 1)
  }

  /** The call ends with its row inserted, or has to clean up. */
  function Ended(x: Server, i: nat, base: string, free: Option<nat>): Server
    requires i < |x.calls| && x.calls[i].Saved?
  {
    if free.Some? then Inserted(x, i, Candidate(base, free.value))
    else x.(calls := x.calls[i := Failed(x.calls[i].key)])
  }

  lemma {:induction false} TriesFindFree(x: Server, i: nat, names: set<string>, attempt: nat)
    requires i < |x.calls| && x.calls[i].Saved? && x.calls[i].attempt == attempt <= 1000
    requires names == OwnedNames(x.tables.files, x.calls[i].owner)
    ensures TryOn(x, i, 1001 - attempt) == Ended(x, i, x.calls[i].base, FirstFree(names, x.calls[i].base, attempt))
    decreases 1000 - attempt
  {
    var base, y := x.calls[i].base, Insertion(x, i, false);
    OneTry(x, i, 1001 - attempt);
    TakenIff(x.tables.files, x.calls[i].owner, Candidate(base, attempt));
    if Candidate(base, attempt) !in names || attempt == 1000 {
      assert !y.calls[i].Saved? && TryOn(y, i, 1000 - attempt) == y;
    } else {
      TriesFindFree(y, i, names, attempt + 1);
      SameEnd(x, i, y, FirstFree(names, base, attempt + 1));
    }
  }

  lemma OneTry(x: Server, i: nat, tries: nat)
    requires i < |x.calls| && x.calls[i].Saved? && tries > 0
    ensures TryOn(x, i, tries) == TryOn(Insertion(x, i, false), i, tries - 1)
  {
  }

  /** What comes of a later attempt is the same as of the attempt before. */
  lemma SameEnd(x: Server, i: nat, y: Server, free: Option<nat>)
    requires i < |x.calls| && x.calls[i].Saved?
    requires y == x.(calls := x.calls[i := x.calls[i].(attempt := x.calls[i].attempt + 1)])
    ensures Ended(y, i, x.calls[i].base, free) == Ended(x, i, x.calls[i].base, free)
  {
    assert y.calls[i := Done] == x.calls[i := Done];
    assert y.calls[i := Failed(x.calls[i].key)] == x.calls[i := Failed(x.calls[i].key)];
  }

  lemma SaveIs(x: Server, owner: nat, filename: string, body: Content, key: string)
    requires Enabled(x, Save(owner, filename, body, key))
    ensures var c := Saved(owner, Base(filename), body, key, 0);
            Take(x, Save(owner, filename, body, key)) == x.(blobs := x.blobs[key := body], calls := x.calls + [c])
  {
  }

  /** The saved call's tries, and what they come to. */
  lemma TriesAlone(x: Server, y: Server, c: Call, free: Option<nat>)
    requires c.Saved? && c.attempt == 0 && c.key !in x.blobs
    requires y == x.(blobs := x.blobs[c.key := c.body], calls := x.calls + [c])
    requires free == FirstFree(OwnedNames(x.tables.files, c.owner), c.base, 0)
    ensures TryOn(y, |x.calls|, 1001) == Ended(y, |x.calls|, c.base, free)
  {
    TriesFindFree(y, |x.calls|, OwnedNames(x.tables.files, c.owner), 0);
  }

  /** What Create's specification has, said of the first free candidate. */
  lemma CreatedAt(s: Tables, owner: nat, filename: string, body: Content, free: Option<nat>)
    requires filename != "" && PlainName(Base(filename))
    requires free == FirstFree(OwnedNames(s.files, owner), Base(filename), 0)
    ensures var c := CreateFile(s, owner, filename, body);
            if free.Some? then
              && c.Created? && c.tables == Insert(s, owner, Candidate(Base(filename), free.value), body)
              && c.row.id == s.lastId + 1
            else !c.Created?
  {
  }

  /** A Create that nobody disturbed has ended with the row that Create's specification has, its
      key and its bytes; or, when all names are taken, with a call that is to clean up, and
      cleaning up leaves everything as it was. */
  ghost predicate AsSpecified(x: Server, y: Server, c: CreateResult, body: Content, key: string)
  {
    if c.Created? then
      y == Server(c.tables, x.keyOf[c.row.id := key], x.blobs[key := body], x.calls + [Done])
    else
      && y.calls == x.calls + [Failed(key)]
      && Release(y, |x.calls|, key, true) == x.(calls := x.calls + [Done])
  }

  /** So it does: the call's tries, one after the other, come to what Create is to do. */
  lemma CreateAlone(x: Server, owner: nat, filename: string, body: Content, key: string)
    requires filename != "" && PlainName(Base(filename)) && FreshKey(x, key)
    ensures AsSpecified(x, TryOn(Take(x, Save(owner, filename, body, key)), |x.calls|, 1001),
                        CreateFile(x.tables, owner, filename, body), body, key)
  {
    SaveIs(x, owner, filename, body, key);
    SavedAlone(x, Take(x, Save(owner, filename, body, key)), filename, Saved(owner, Base(filename), body, key, 0));
  }

  lemma SavedAlone(x: Server, y: Server, filename: string, c: Call)
    requires filename != "" && PlainName(Base(filename))
    requires c.Saved? && c.attempt == 0 && c.key !in x.blobs && c.base == Base(filename)
    requires y == x.(blobs := x.blobs[c.key := c.body], calls := x.calls + [c])
    ensures AsSpecified(x, TryOn(y, |x.calls|, 1001), CreateFile(x.tables, c.owner, filename, c.body), c.body, c.key)
  {
    var free := FirstFree(OwnedNames(x.tables.files, c.owner), c.base, 0);
    TriesAlone(x, y, c, free);
    EndAlone(x, y, c, free);
    CreatedAt(x.tables, c.owner, filename, c.body, free);
    EndSpecified(x, Ended(y, |x.calls|, c.base, free), CreateFile(x.tables, c.owner, filename, c.body), c, free);
  }

  lemma EndSpecified(x: Server, z: Server, r: CreateResult, c: Call, free: Option<nat>)
    requires c.Saved?
    requires if free.Some? then
               && z == Server(Insert(x.tables, c.owner, Candidate(c.base, free.value), c.body),
                              x.keyOf[x.tables.lastId + 1 := c.key], x.blobs[c.key := c.body], x.calls + [Done])
               && r.Created? && r.tables == Insert(x.tables, c.owner, Candidate(c.base, free.value), c.body)
               && r.row.id == x.tables.lastId + 1
             else
               && z.calls == x.calls + [Failed(c.key)] && !r.Created?
               && Release(z, |x.calls|, c.key, true) == x.(calls := x.calls + [Done])
    ensures AsSpecified(x, z, r, c.body, c.key)
  {
  }

  lemma EndAlone(x: Server, y: Server, c: Call, free: Option<nat>)
    requires c.Saved? && c.key !in x.blobs
    requires y == x.(blobs := x.blobs[c.key := c.body], calls := x.calls + [c])
    ensures var i := |x.calls|;
            var z := Ended(y, i, c.base, free);
            if free.Some? then
              z == Server(Insert(x.tables, c.owner, Candidate(c.base, free.value), c.body),
                          x.keyOf[x.tables.lastId + 1 := c.key], y.blobs, x.calls + [Done])
            else z.calls == x.calls + [Failed(c.key)] && Release(z, i, c.key, true) == x.(calls := x.calls + [Done])
  {
    LastCall(x.calls, c, Done);
    LastCall(x.calls, c, Failed(c.key));
    LastCall(x.calls, Failed(c.key), Done);
    assert x.blobs[c.key := c.body] - {c.key} == x.blobs;
  }

  /** An insert that fails for another reason than its name leads to cleaning up, whatever the
      name: the bytes go and nothing else has changed. */
  lemma ErrorCleansUp(x: Server, i: nat)
    requires i < |x.calls| && x.calls[i].Saved?
    ensures var key, y := x.calls[i].key, Insertion(x, i, true);
            && y == x.(calls := x.calls[i := Failed(key)])
            && Enabled(y, CleanUp(i, true))
            && Take(y, CleanUp(i, true)) == x.(blobs := x.blobs - {key}, calls := x.calls[i := Done])
  {
    assert x.calls[i := Failed(x.calls[i].key)][i := Done] == x.calls[i := Done];
  }

  lemma LastCall(calls: seq<Call>, c: Call, d: Call)
    ensures (calls + [c])[|calls| := d] == calls + [d]
  {
  }

  /** A Delete that nobody disturbs turns the row into a tombstone and drops key and bytes. */
  lemma DeleteAlone(x: Server, owner: nat, id: nat)
    requires Enabled(x, Lookup(owner, id))
    ensures var i := |x.calls|;
            Release(Deletion(Take(x, Lookup(owner, id)), i), i, x.keyOf[id], true)
            == Server(Bury(x.tables, owner, id), x.keyOf - {id}, x.blobs - {x.keyOf[id]}, x.calls + [Done])
  {
    var i, key := |x.calls|, x.keyOf[id];
    var y := Take(x, Lookup(owner, id));
    assert y.calls == x.calls + [Found(owner, id, key)];
    assert Deletion(y, i).calls[i := Done] == x.calls + [Done];
  }

  // ---- The service object -----------------------------------------------------------------

  /** A quiet server in good order. */
  ghost predicate Settled(x: Server) {
    x.calls == [] && Ok(x) && NoOrphan(x)
  }

  /** The state a whole Create call leaves. */
  function FileAdded(x: Server, row: Row, key: string): Server {
    Server(Insert(x.tables, row.owner, row.name, row.body), x.keyOf[x.tables.lastId + 1 := key],
           x.blobs[key := row.body], x.calls)
  }

  lemma AddedSettled(x: Server, owner: nat, filename: string, name: string, body: Content, key: string)
    requires Settled(x) && FreshKey(x, key) && filename != "" && PlainName(Base(filename))
    requires !Taken(x.tables.files, owner, name)
    ensures Settled(FileAdded(x, NewRow(x.tables, owner, name, body), key))
  {
    AddedOk(x, owner, filename, name, body, key);
    AddedAnswered(x, NewRow(x.tables, owner, name, body), key);
  }

  lemma AddedOk(x: Server, owner: nat, filename: string, name: string, body: Content, key: string)
    requires x.calls == [] && Ok(x) && FreshKey(x, key) && filename != "" && PlainName(Base(filename))
    requires !Taken(x.tables.files, owner, name)
    ensures Ok(FileAdded(x, NewRow(x.tables, owner, name, body), key))
  {
    var save := Save(owner, filename, body, key);
    SaveOk(x, save);
    InsertedOk(Take(x, save), 0, name);
    ForgetDone(Inserted(Take(x, save), 0, name));
    AddedInTwoSteps(x, save, name);
  }

  lemma AddedInTwoSteps(x: Server, save: Step, name: string)
    requires x.calls == [] && Enabled(x, save) && save.Save?
    ensures var Save(owner, _, body, key) := save;
            FileAdded(x, NewRow(x.tables, owner, name, body), key) == Inserted(Take(x, save), 0, name).(calls := [])
  {
    var Save(owner, filename, body, key) := save;
    var y := Take(x, save);
    assert y == x.(blobs := x.blobs[key := body], calls := [Saved(owner, Base(filename), body, key, 0)]);
    assert Inserted(y, 0, name).tables == Insert(x.tables, owner, name, body);
    assert Inserted(y, 0, name).keyOf == x.keyOf[x.tables.lastId + 1 := key];
  }

  lemma AddedAnswered(x: Server, row: Row, key: string)
    requires KeysOk(x) && x.calls == [] && NoOrphan(x)
    ensures NoOrphan(FileAdded(x, row, key))
  {
    var z := FileAdded(x, row, key);
    forall k | k in z.blobs
      ensures exists id :: id in z.keyOf && z.keyOf[id] == k
    {
      if k == key {
        assert x.tables.lastId + 1 in z.keyOf && z.keyOf[x.tables.lastId + 1] == k;
      } else {
        var id: nat :| id in x.keyOf && x.keyOf[id] == k;
        assert id <= x.tables.lastId;
        assert id in z.keyOf && z.keyOf[id] == k;
      }
    }
  }

  lemma CreateSettles(x: Server, owner: nat, filename: string, body: Content, key: string)
    requires Settled(x) && FreshKey(x, key)
    ensures var c := CreateFile(x.tables, owner, filename, body);
            c.Created? ==>
              && Settled(FileAdded(x, c.row, key))
              && c.row == NewRow(x.tables, owner, c.row.name, body)
                 && c.tables == Insert(x.tables, owner, c.row.name, body)
  {
    var c := CreateFile(x.tables, owner, filename, body);
    if c.Created? {
      CreatePicksLeastFree(x.tables, owner, filename, body);
      AddedSettled(x, owner, filename, c.row.name, body, key);
    }
  }

  lemma ForgetDone(x: Server)
    requires Ok(x)
    ensures Ok(x.(calls := []))
  {
  }

  /** The state a whole Delete call leaves. */
  function FileGone(x: Server, owner: nat, id: nat): Server
    requires id in x.keyOf
  {
    Server(Bury(x.tables, owner, id), x.keyOf - {id}, x.blobs - {x.keyOf[id]}, x.calls)
  }

  lemma GoneSettled(x: Server, owner: nat, id: nat)
    requires Settled(x) && FindId(x.tables.files, owner, id).Some? && id in x.keyOf
    ensures Settled(FileGone(x, owner, id))
  {
    GoneOk(x, owner, id);
    GoneAnswered(x, owner, id);
  }

  lemma GoneOk(x: Server, owner: nat, id: nat)
    requires x.calls == [] && Ok(x) && FindId(x.tables.files, owner, id).Some? && id in x.keyOf
    ensures Ok(FileGone(x, owner, id))
  {
    var y := Take(x, Lookup(owner, id));
    LookupOk(x, Lookup(owner, id));
    DeletionOk(y, 0);
    var z := Deletion(y, 0);
    ReleaseOk(z, 0, true);
    var w := Release(z, 0, x.keyOf[id], true);
    ForgetDone(w);
    assert FileGone(x, owner, id) == w.(calls := []);
  }

  lemma GoneAnswered(x: Server, owner: nat, id: nat)
    requires x.calls == [] && NoOrphan(x) && id in x.keyOf
    ensures NoOrphan(FileGone(x, owner, id))
  {
    var e := FileGone(x, owner, id);
    forall k | k in e.blobs
      ensures exists other :: other in e.keyOf && e.keyOf[other] == k
    {
      var other: nat :| other in x.keyOf && x.keyOf[other] == k;
      assert other in e.keyOf && e.keyOf[other] == k;
    }
  }

  /** FileService with its repository and storage, when its calls do not overlap. */
  class FileStore {
    const repo: FileRepo
    var keyOf: map<nat, string>
    var blobs: map<string, Content>

    ghost function View(): Server
      reads this, repo
    {
      Server(repo.State(), keyOf, blobs, [])
    }

    constructor ()
      ensures Settled(View()) && View() == Server(EMPTY_TABLES, map[], map[], [])
      ensures fresh(repo)
    {
      repo := new FileRepo();
      keyOf, blobs := map[], map[];
    }

    /** Save the bytes, insert the row, and delete the bytes again if that came to nothing. */
    method SaveAndInsert(owner: nat, base: string, body: Content, key: string) returns (created: Option<Row>)
      requires Valid(repo.State()) && key !in blobs
      modifies this, repo
      ensures var s, free := old(repo.State()), FirstFree(OwnedNames(old(repo.files), owner), base, 0);
              && (free.None? ==> created.None? && View() == old(View()))
              && (free.Some? ==>
                    && created == Some(NewRow(s, owner, Candidate(base, free.value), body))
                    && View() == FileAdded(old(View()), created.value, key))
    {
      blobs := blobs[key := body];
      FirstFreeWithin(OwnedNames(repo.files, owner), base, 0);
      created := InsertFirstFree(repo, owner, base, body);
      match created
      case None =>
        blobs := blobs - {key};
        assert blobs == old(blobs);
      case Some(row) =>
        keyOf := keyOf[row.id := key];
    }

    /** All or nothing: a filename that is no name, a failed save or exhausted names leave
        tables and storage as they were. */
    method Create(owner: nat, filename: string, body: Content, key: string, saved: bool) returns (created: Option<Row>)
      requires Settled(View()) && FreshKey(View(), key)
      modifies this, repo
      ensures Settled(View())
      ensures var c := CreateFile(old(repo.State()), owner, filename, body);
              if saved && c.Created? then
                && created == Some(c.row) && repo.State() == c.tables
                && keyOf == old(keyOf)[c.row.id := key] && blobs == old(blobs)[key := body]
              else created.None? && View() == old(View())
    {
      if filename == "" {
        return None;
      }
      var base := Base(filename);
      BasePlain(filename);
      if base == "." || base == "/" || !saved {
        return None;
      }
      CreateSettles(View(), owner, filename, body, key);
      created := SaveAndInsert(owner, base, body, key);
    }

    /** Refuses ids that are not the owner's; otherwise row, key and bytes go together. */
    method Delete(owner: nat, id: nat) returns (found: bool)
      requires Settled(View())
      modifies this, repo
      ensures Settled(View())
      ensures found <==> old(FindId(repo.files, owner, id)).Some?
      ensures found ==>
                && id in old(keyOf) && repo.State() == Bury(old(repo.State()), owner, id)
                && keyOf == old(keyOf) - {id} && blobs == old(blobs) - {old(keyOf)[id]}
      ensures !found ==> View() == old(View())
    {
      if FindId(repo.files, owner, id).None? {
        return false;
      }
      GoneSettled(View(), owner, id);
      var key := keyOf[id];
      found := repo.Delete(owner, id);
      keyOf, blobs := keyOf - {id}, blobs - {key};
    }
  }
}
