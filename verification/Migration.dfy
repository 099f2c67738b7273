/** Migration 0003: rename every later duplicate of an (owner, name) pair so that the unique
    index can be created. */
module Migration {
  import opened Basics
  import opened FileNames
  import opened Repo

  /** The table in id order, which is how the loop visits it. */
  ghost predicate InIdOrder(files: seq<Row>) {
    forall i, j :: 0 <= i < j < |files| ==> files[i].id < files[j].id
  }

  /** row_number() OVER (PARTITION BY uploaded_by, name ORDER BY id) of row `i`. */
  function RowNumber(files: seq<Row>, i: nat): (rn: nat)
    requires i < |files|
    ensures rn >= 1
  {
    1 + Earlier(files, i, files[i].owner, files[i].name)
  }

  /** How many of the first `i` rows are the owner's and have the name. */
  function Earlier(files: seq<Row>, i: nat, owner: nat, name: string): nat
    requires i <= |files|
  {
    if i == 0 then 0
    else Earlier(files, i - 1, owner, name) + if files[i - 1].owner == owner && files[i - 1].name == name then 1 else 0
  }

  lemma {:induction false} EarlierPositiveIff(files: seq<Row>, i: nat, owner: nat, name: string)
    requires i <= |files|
    ensures Earlier(files, i, owner, name) > 0 <==>
            exists j :: 0 <= j < i && files[j].owner == owner && files[j].name == name
  {
    if i > 0 {
      EarlierPositiveIff(files, i - 1, owner, name);
    }
  }

  /** The rows of the owner's among the first `i` that have the name. */
  function Older(files: seq<Row>, i: nat, owner: nat, name: string): set<nat>
    requires i <= |files|
  {
    set j: nat | j < i && files[j].owner == owner && files[j].name == name
  }

  lemma {:induction false} EarlierCounts(files: seq<Row>, i: nat, owner: nat, name: string)
    requires i <= |files|
    ensures Earlier(files, i, owner, name) == |Older(files, i, owner, name)|
  {
    if i == 0 {
      assert Older(files, i, owner, name) == {};
    } else {
      EarlierCounts(files, i - 1, owner, name);
      assert Older(files, i, owner, name)
          == Older(files, i - 1, owner, name)
             + if files[i - 1].owner == owner && files[i - 1].name == name then {i - 1} else {};
    }
  }

  /** Row numbers count the older rows of the same owner and name, from 1 on. */
  lemma RowNumberIs(was: seq<Row>, i: nat)
    requires i < |was|
    ensures RowNumber(was, i) == 1 + |set j: nat | j < i && was[j].owner == was[i].owner && was[j].name == was[i].name|
  {
    EarlierCounts(was, i, was[i].owner, was[i].name);
    assert Older(was, i, was[i].owner, was[i].name)
        == set j: nat | j < i && was[j].owner == was[i].owner && was[j].name == was[i].name;
  }

  /** The names a candidate for row `id` may not take. */
  function OtherNames(files: seq<Row>, owner: nat, id: nat): set<string> {
    if files == [] then {}
    else
      var last := files[|files| - 1];
      OtherNames(files[..|files| - 1], owner, id) + if last.owner == owner && last.id != id then {last.name} else {}
  }

  lemma {:induction false} OtherNamesHas(files: seq<Row>, owner: nat, id: nat, k: nat)
    requires k < |files| && files[k].owner == owner && files[k].id != id
    ensures files[k].name in OtherNames(files, owner, id)
  {
    if k < |files| - 1 {
      OtherNamesHas(files[..|files| - 1], owner, id, k);
    }
  }

  lemma {:induction false} OtherNamesOnly(files: seq<Row>, owner: nat, id: nat, name: string)
    requires name in OtherNames(files, owner, id)
    ensures exists k :: 0 <= k < |files| && files[k].owner == owner && files[k].id != id && files[k].name == name
  {
    var last := files[|files| - 1];
    if !(last.owner == owner && last.id != id && last.name == name) {
      OtherNamesOnly(files[..|files| - 1], owner, id, name);
      var k :| 0 <= k < |files| - 1 && files[k].owner == owner && files[k].id != id && files[k].name == name;
    }
  }

  lemma {:induction false} OtherNamesFewer(files: seq<Row>, owner: nat, id: nat)
    ensures |OtherNames(files, owner, id)| <= |files|
    ensures (exists k :: 0 <= k < |files| && files[k].id == id) ==> |OtherNames(files, owner, id)| < |files|
  {
    if files != [] {
      OtherNamesFewer(files[..|files| - 1], owner, id);
    }
  }

  // ---- The inner loop ---------------------------------------------------------------------

  /** The taken names that candidates numbered `k` or more still run into. */
  ghost function Ahead(names: set<string>, name: string, k: nat): set<string> {
    set s | s in names && exists m: nat :: m >= k && SqlCandidate(name, m) == s
  }

  /** Numbers never repeat a candidate, so each collision uses up a taken name. */
  lemma AheadShrinks(names: set<string>, name: string, k: nat)
    requires SqlCandidate(name, k) in names
    ensures |Ahead(names, name, k + 1)| < |Ahead(names, name, k)|
  {
    var s, now, next := SqlCandidate(name, k), Ahead(names, name, k), Ahead(names, name, k + 1);
    assert s in now;
    if s in next {
      var m: nat :| m >= k + 1 && SqlCandidate(name, m) == s;
      SqlCandidateInjective(name, k, m);
    }
    SubsetSize(next, now - {s});
  }

  /** The least suffix from `k` on whose candidate is free. */
  function FreeSuffix(names: set<string>, name: string, k: nat): nat
    decreases |Ahead(names, name, k)|
  {
    if SqlCandidate(name, k) !in names then k
    else
      AheadShrinks(names, name, k);
      FreeSuffix(names, name, k + 1)
  }

  /** The search ends within one step per taken name, at the first free candidate. */
  lemma {:induction false} FreeSuffixIsLeast(names: set<string>, name: string, k: nat)
    ensures var m := FreeSuffix(names, name, k);
            && k <= m <= k + |names| && SqlCandidate(name, m) !in names
            && forall j :: k <= j < m ==> SqlCandidate(name, j) in names
    decreases |Ahead(names, name, k)|
  {
    FreeSuffixBound(names, name, k);
    SubsetSize(Ahead(names, name, k), names);
  }

  lemma {:induction false} FreeSuffixBound(names: set<string>, name: string, k: nat)
    ensures var m := FreeSuffix(names, name, k);
            && k <= m <= k + |Ahead(names, name, k)| && SqlCandidate(name, m) !in names
            && forall j :: k <= j < m ==> SqlCandidate(name, j) in names
    decreases |Ahead(names, name, k)|
  {
    if SqlCandidate(name, k) in names {
      AheadShrinks(names, name, k);
      FreeSuffixBound(names, name, k + 1);
    }
  }

  // ---- The outer loop ---------------------------------------------------------------------

  /** The name row `i` is given, when the table has become `now`. */
  function NewName(was: seq<Row>, now: seq<Row>, i: nat): string
    requires i < |was|
  {
    var rn := RowNumber(was, i);
    if rn == 1 then was[i].name
    else SqlCandidate(was[i].name, FreeSuffix(OtherNames(now, was[i].owner, was[i].id), was[i].name, rn - 1))
  }

  /** One turn of the loop, for row `i` of the query. */
  function Turn(was: seq<Row>, t: seq<Row>, i: nat): (now: seq<Row>)
    requires i < |was| && |t| == |was|
    ensures |now| == |t|
  {
    if RowNumber(was, i) == 1 then t else t[i := t[i].(name := NewName(was, t, i))]
  }

  /** The table after the first `i` rows of the query have been handled. */
  function Migrated(was: seq<Row>, i: nat): (now: seq<Row>)
    requires i <= |was|
    ensures |now| == |was|
  {
    if i == 0 then was else Turn(was, Migrated(was, i - 1), i - 1)
  }

  lemma TurnRow(was: seq<Row>, t: seq<Row>, k: nat, j: nat)
    requires k < |was| && |t| == |was| && j < |was|
    ensures Turn(was, t, k)[j]
            == if j == k && RowNumber(was, k) > 1 then t[j].(name := NewName(was, t, k)) else t[j]
  {
  }

  /** Only names change, only of later duplicates, and only once their turn has come. */
  lemma {:induction false} OnlyDuplicatesRenamed(was: seq<Row>, i: nat, j: nat)
    requires i <= |was| && j < |was|
    ensures Migrated(was, i)[j] == was[j].(name := Migrated(was, i)[j].name)
    ensures j >= i || RowNumber(was, j) == 1 ==> Migrated(was, i)[j] == was[j]
  {
    if i > 0 {
      var t := Migrated(was, i - 1);
      OnlyDuplicatesRenamed(was, i - 1, j);
      TurnRow(was, t, i - 1, j);
      assert Migrated(was, i) == Turn(was, t, i - 1);
    }
  }

  lemma NewNameFree(was: seq<Row>, t: seq<Row>, i: nat, k: nat)
    requires i < |was| && RowNumber(was, i) > 1
    requires k < |t| && t[k].owner == was[i].owner && t[k].id != was[i].id
    ensures NewName(was, t, i) != t[k].name
  {
    FreeSuffixIsLeast(OtherNames(t, was[i].owner, was[i].id), was[i].name, RowNumber(was, i) - 1);
    OtherNamesHas(t, was[i].owner, was[i].id, k);
  }

  lemma MigratedStep(was: seq<Row>, i: nat)
    requires i < |was|
    ensures Migrated(was, i + 1) == Turn(was, Migrated(was, i), i)
  {
  }

  lemma OwnerKept(was: seq<Row>, i: nat, j: nat)
    requires i <= |was| && j < |was|
    ensures Migrated(was, i)[j].owner == was[j].owner && Migrated(was, i)[j].id == was[j].id
  {
    OnlyDuplicatesRenamed(was, i, j);
  }

  lemma TurnedApart(was: seq<Row>, t: seq<Row>, j: nat, k: nat)
    requires j < |was| && k < |was| && k != j && |t| == |was| && RowNumber(was, j) > 1
    requires t[k].owner == was[j].owner && t[k].id != was[j].id
    ensures Turn(was, t, j)[j].name != Turn(was, t, j)[k].name
  {
    TurnRow(was, t, j, j);
    TurnRow(was, t, j, k);
    NewNameFree(was, t, j, k);
  }

  lemma TurnKeepsApart(was: seq<Row>, t: seq<Row>, i: nat, j: nat, k: nat)
    requires InIdOrder(was) && j < i < |was| == |t| && k < |was| && was[j].owner == was[k].owner
    requires t[j].owner == was[j].owner && t[j].id == was[j].id && t[j].name != t[k].name
    ensures Turn(was, t, i)[j].name != Turn(was, t, i)[k].name
  {
    TurnRow(was, t, i, j);
    TurnRow(was, t, i, k);
    if k == i && RowNumber(was, k) > 1 {
      NewNameFree(was, t, k, j);
    }
  }

  lemma ApartAtTurn(was: seq<Row>, j: nat, k: nat)
    requires InIdOrder(was) && j < |was| && k < |was| && k != j
    requires RowNumber(was, j) > 1 && was[j].owner == was[k].owner
    ensures Migrated(was, j + 1)[j].name != Migrated(was, j + 1)[k].name
  {
    assert was[j].id != was[k].id;
    OwnerKept(was, j, k);
    TurnedApart(was, Migrated(was, j), j, k);
    MigratedStep(was, j);
  }

  lemma ApartNext(was: seq<Row>, i: nat, j: nat, k: nat)
    requires InIdOrder(was) && j < i < |was| && k < |was| && was[j].owner == was[k].owner
    requires Migrated(was, i)[j].name != Migrated(was, i)[k].name
    ensures Migrated(was, i + 1)[j].name != Migrated(was, i + 1)[k].name
  {
    OwnerKept(was, i, j);
    TurnKeepsApart(was, Migrated(was, i), i, j, k);
    MigratedStep(was, i);
  }

  /** A renamed row shares its name with no other row of its owner. */
  lemma {:induction false} RenamedApart(was: seq<Row>, i: nat, j: nat, k: nat)
    requires InIdOrder(was) && j <= i < |was| && k < |was| && k != j
    requires RowNumber(was, j) > 1 && was[j].owner == was[k].owner
    ensures Migrated(was, i + 1)[j].name != Migrated(was, i + 1)[k].name
  {
    if j == i {
      ApartAtTurn(was, j, k);
    } else {
      RenamedApart(was, i - 1, j, k);
      ApartNext(was, i, j, k);
    }
  }

  /** The point of the migration: whatever the table held, the unique index can be created. */
  lemma {:induction false} MigrationMakesUnique(was: seq<Row>)
    requires InIdOrder(was)
    ensures UniqueNames(Migrated(was, |was|)) && InIdOrder(Migrated(was, |was|))
  {
    var now := Migrated(was, |was|);
    forall j, k | 0 <= j < k < |now|
      ensures now[j].id < now[k].id && (now[j].owner == now[k].owner ==> now[j].name != now[k].name)
    {
      PairApart(was, j, k);
    }
    UniqueByIndex(now);
  }

  lemma UniqueByIndex(now: seq<Row>)
    requires forall j, k :: 0 <= j < k < |now| && now[j].owner == now[k].owner ==> now[j].name != now[k].name
    ensures UniqueNames(now)
  {
  }

  lemma {:induction false} PairApart(was: seq<Row>, j: nat, k: nat)
    requires InIdOrder(was) && j < k < |was|
    ensures var now := Migrated(was, |was|);
            now[j].id < now[k].id && (now[j].owner == now[k].owner ==> now[j].name != now[k].name)
  {
    OnlyDuplicatesRenamed(was, |was|, j);
    OnlyDuplicatesRenamed(was, |was|, k);
    if was[j].owner == was[k].owner {
      if RowNumber(was, j) > 1 {
        RenamedApart(was, |was| - 1, j, k);
      } else if RowNumber(was, k) > 1 {
        RenamedApart(was, |was| - 1, k, j);
      } else {
        EarlierPositiveIff(was, k, was[k].owner, was[k].name);
      }
    }
  }

  /** A row keeps its name exactly when no older row of its owner had it: the oldest of each
      group and the rows that were unique already. Nothing but names ever changes. */
  lemma NameKeptIff(was: seq<Row>, i: nat)
    requires InIdOrder(was) && i < |was|
    ensures var now := Migrated(was, |was|);
            && now[i] == was[i].(name := now[i].name)
            && (now[i].name == was[i].name <==>
                !exists j :: 0 <= j < i && was[j].owner == was[i].owner && was[j].name == was[i].name)
  {
    OnlyDuplicatesRenamed(was, |was|, i);
    EarlierPositiveIff(was, i, was[i].owner, was[i].name);
    if RowNumber(was, i) > 1 {
      RenamedAtItsTurn(was, i, |was|);
      NewNameDiffers(was, Migrated(was, i), i);
    }
  }

  /** A row is renamed at its own turn and left alone afterwards. */
  lemma {:induction false} RenamedAtItsTurn(was: seq<Row>, i: nat, n: nat)
    requires i < n <= |was| && RowNumber(was, i) > 1
    ensures Migrated(was, n)[i].name == NewName(was, Migrated(was, i), i)
  {
    TurnRow(was, Migrated(was, n - 1), n - 1, i);
    if n > i + 1 {
      RenamedAtItsTurn(was, i, n - 1);
    }
  }

  lemma NewNameDiffers(was: seq<Row>, t: seq<Row>, i: nat)
    requires i < |was| && RowNumber(was, i) > 1
    ensures NewName(was, t, i) != was[i].name
  {
    SqlCandidateLonger(was[i].name, FreeSuffix(OtherNames(t, was[i].owner, was[i].id), was[i].name,
                                               RowNumber(was, i) - 1));
  }

  lemma SqlCandidateLonger(name: string, n: nat)
    ensures |SqlCandidate(name, n)| > |name|
  {
    DecimalDigits(n);
  }

  /** Another row of the owner's has the name when it is row i's turn: an older row by its final
      name, a younger one by its original name. */
  ghost predicate TakenAtTurn(was: seq<Row>, now: seq<Row>, i: nat, name: string)
    requires i < |was| == |now|
  {
    exists k :: 0 <= k < |was| && k != i && was[k].owner == was[i].owner
                && name == if k < i then now[k].name else was[k].name
  }

  /** `t` is the table at row i's turn, when it has become `now` in the end. */
  ghost predicate AtTurn(was: seq<Row>, t: seq<Row>, now: seq<Row>, i: nat)
    requires i < |was| == |t| == |now|
  {
    forall k :: 0 <= k < |was| ==> t[k] == was[k].(name := if k < i then now[k].name else was[k].name)
  }

  lemma TableAtTurn(was: seq<Row>, i: nat)
    requires i < |was|
    ensures AtTurn(was, Migrated(was, i), Migrated(was, |was|), i)
  {
    var n := |was|;
    forall k | 0 <= k < |was|
      ensures Migrated(was, i)[k] == was[k].(name := if k < i then Migrated(was, n)[k].name else was[k].name)
    {
      OnlyDuplicatesRenamed(was, i, k);
      if k < i {
        SettledOnce(was, k, i, n);
      }
    }
  }

  lemma TakenAtTurnIff(was: seq<Row>, t: seq<Row>, now: seq<Row>, i: nat, name: string)
    requires InIdOrder(was) && i < |was| == |t| == |now| && AtTurn(was, t, now, i)
    ensures TakenAtTurn(was, now, i, name) <==> name in OtherNames(t, was[i].owner, was[i].id)
  {
    if name in OtherNames(t, was[i].owner, was[i].id) {
      OtherNamesOnly(t, was[i].owner, was[i].id, name);
      var k :| 0 <= k < |t| && t[k].owner == was[i].owner && t[k].id != was[i].id && t[k].name == name;
      assert t[k] == was[k].(name := if k < i then now[k].name else was[k].name);
    }
    if TakenAtTurn(was, now, i, name) {
      var k :| 0 <= k < |was| && k != i && was[k].owner == was[i].owner
          && name == if k < i then now[k].name else was[k].name;
      assert t[k] == was[k].(name := if k < i then now[k].name else was[k].name);
      OtherNamesHas(t, was[i].owner, was[i].id, k);
    }
  }

  /** After its own turn a row is left alone. */
  lemma {:induction false} SettledOnce(was: seq<Row>, k: nat, i: nat, n: nat)
    requires k < i <= n <= |was|
    ensures Migrated(was, n)[k] == Migrated(was, i)[k]
  {
    if i < n {
      SettledOnce(was, k, i, n - 1);
      NextTurn(was, n, k);
    }
  }

  lemma NextTurn(was: seq<Row>, n: nat, k: nat)
    requires 0 < n <= |was| && k < n - 1
    ensures Migrated(was, n)[k] == Migrated(was, n - 1)[k]
  {
    TurnRow(was, Migrated(was, n - 1), n - 1, k);
  }

  /** "stem (m).ext", split at the name's last dot. */
  ghost predicate Numbered(name: string, m: nat, out: string) {
    out == SqlStem(name) + " (" + Decimal(m) + ")" + SqlExt(name)
  }

  /** Row i's final name carries number m, was free, and all numbers from `rank` up to m were not. */
  ghost predicate LeastFrom(was: seq<Row>, now: seq<Row>, i: nat, rank: nat, m: nat)
    requires i < |was| == |now|
  {
    && rank <= m && Numbered(was[i].name, m, now[i].name) && !TakenAtTurn(was, now, i, now[i].name)
    && forall j: nat, out :: rank <= j < m && Numbered(was[i].name, j, out) ==> TakenAtTurn(was, now, i, out)
  }

  /** A renamed row is called "stem (m).ext" with the least m, from the number of older rows of
      its name on, that no other row of its owner had at its turn; m is less than that number
      plus the table's size. */
  lemma RenamedToLeastFree(was: seq<Row>, i: nat)
    requires InIdOrder(was) && i < |was|
    requires exists j :: 0 <= j < i && was[j].owner == was[i].owner && was[j].name == was[i].name
    ensures var now := Migrated(was, |was|);
            var rank := |set j: nat | j < i && was[j].owner == was[i].owner && was[j].name == was[i].name|;
            exists m: nat :: m < rank + |was| && LeastFrom(was, now, i, rank, m)
  {
    var rank, t, now := RowNumber(was, i) - 1, Migrated(was, i), Migrated(was, |was|);
    RowNumberIs(was, i);
    EarlierPositiveIff(was, i, was[i].owner, was[i].name);
    RenamedAtItsTurn(was, i, |was|);
    TableAtTurn(was, i);
    LeastSuffix(was, t, now, i);
  }

  lemma LeastSuffix(was: seq<Row>, t: seq<Row>, now: seq<Row>, i: nat)
    requires InIdOrder(was) && i < |was| == |t| == |now| && AtTurn(was, t, now, i) && RowNumber(was, i) > 1
    requires now[i].name == NewName(was, t, i)
    ensures var rank := RowNumber(was, i) - 1;
            var m := FreeSuffix(OtherNames(t, was[i].owner, was[i].id), was[i].name, rank);
            m < rank + |was| && LeastFrom(was, now, i, rank, m)
  {
    var rank, names := RowNumber(was, i) - 1, OtherNames(t, was[i].owner, was[i].id);
    var m := FreeSuffix(names, was[i].name, rank);
    FreeSuffixIsLeast(names, was[i].name, rank);
    OtherNamesFewer(t, was[i].owner, was[i].id);
    assert t[i] == was[i];
    TakenAtTurnIff(was, t, now, i, now[i].name);
    forall j: nat, out | rank <= j < m && Numbered(was[i].name, j, out)
      ensures TakenAtTurn(was, now, i, out)
    {
      assert out == SqlCandidate(was[i].name, j);
      TakenAtTurnIff(was, t, now, i, out);
    }
  }

  /** Running it on a table without duplicates changes nothing, and only then. */
  lemma {:induction false} MigrationIdleIff(was: seq<Row>)
    requires InIdOrder(was)
    ensures Migrated(was, |was|) == was <==> UniqueNames(was)
  {
    var now := Migrated(was, |was|);
    if UniqueNames(was) {
      forall i | 0 <= i < |was|
        ensures now[i] == was[i]
      {
        assert forall k :: 0 <= k < |was| ==> was[k] in was;
        NameKeptIff(was, i);
      }
    } else if now == was {
      MigrationMakesUnique(was);
    }
  }

  /** For slash-free names the new name has the old extension. */
  lemma {:induction false} RenamedKeepsExtension(was: seq<Row>, i: nat)
    requires InIdOrder(was) && i < |was| && '/' !in was[i].name
    ensures Ext(Migrated(was, |was|)[i].name) == Ext(was[i].name)
  {
    OnlyDuplicatesRenamed(was, |was|, i);
    if RowNumber(was, i) > 1 {
      RenamedAtItsTurn(was, i, |was|);
      NewNameKeepsExtension(was, Migrated(was, i), i);
    }
  }

  lemma NewNameKeepsExtension(was: seq<Row>, t: seq<Row>, i: nat)
    requires i < |was| && RowNumber(was, i) > 1 && '/' !in was[i].name
    ensures Ext(NewName(was, t, i)) == Ext(was[i].name)
  {
    var m := FreeSuffix(OtherNames(t, was[i].owner, was[i].id), was[i].name, RowNumber(was, i) - 1);
    SqlCandidateIsDedupedName(was[i].name, m);
    DedupedKeepsExtension(was[i].name, m);
  }

  // ---- The program ------------------------------------------------------------------------

  /** The inner loop: the least free candidate from the row's own number on. */
  method FreeCandidate(files: array<Row>, rec: Row, rn: nat) returns (candidate: string)
    requires rn > 1
    ensures candidate == SqlCandidate(rec.name, FreeSuffix(OtherNames(files[..], rec.owner, rec.id), rec.name, rn - 1))
  {
    var dotPos := DotPosition(Reverse(rec.name));
    var stem := if dotPos == 0 then rec.name else rec.name[..|rec.name| - dotPos];
    var ext := if dotPos == 0 then "" else rec.name[|rec.name| - dotPos..];
    assert stem == SqlStem(rec.name) && ext == SqlExt(rec.name);
    var suffix := rn - 1;
    candidate := stem + " (" + Decimal(suffix) + ")" + ext;
    ghost var names := OtherNames(files[..], rec.owner, rec.id);
    while candidate in OtherNames(files[..], rec.owner, rec.id)
      invariant candidate == SqlCandidate(rec.name, suffix)
      invariant FreeSuffix(names, rec.name, suffix) == FreeSuffix(names, rec.name, rn - 1)
      decreases |Ahead(names, rec.name, suffix)|
    {
      AheadShrinks(names, rec.name, suffix);
      suffix := suffix + 1;
      candidate := stem + " (" + Decimal(suffix) + ")" + ext;
    }
  }

  /** The outer loop's body, for the query's row `i`. */
  method HandleRow(files: array<Row>, recs: seq<Row>, i: nat)
    requires i < |recs| == files.Length
    modifies files
    ensures files[..] == Turn(recs, old(files[..]), i)
  {
    var rec, rn := recs[i], RowNumber(recs, i);
    if rn == 1 {
      return;
    }
    var candidate := FreeCandidate(files, rec, rn);
    files[i] := files[i].(name := candidate);
  }

  /** The DO block, updating the table in place while it walks the query's result. */
  method RenameDuplicates(files: array<Row>)
    requires InIdOrder(files[..])
    modifies files
    ensures files[..] == Migrated(old(files[..]), files.Length)
    ensures UniqueNames(files[..]) && InIdOrder(files[..])
  {
    var recs := files[..];
    for i := 0 to files.Length
      invariant files[..] == Migrated(recs, i)
    {
      HandleRow(files, recs, i);
    }
    MigrationMakesUnique(recs);
  }
}
