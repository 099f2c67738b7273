/** Chunked upload sessions. Each step below is one critical section under a session's mutex or
    the table's; a call that has found its session keeps the reference, so a step may use any
    session ever made, even one removed since. */
module Uploads {
  import opened Basics
  import opened FileNames
  import opened Repo
  import opened FileService

  const MAX_UPLOAD_SESSION_SIZE: nat := 512 * 1024 * 1024

  /** `offset` is the position of the scratch file. `accepted` is history: the chunks that were
      acknowledged, in index order. */
  datatype Session = Session(owner: nat, filename: string, declared: nat, received: nat, nextChunk: nat,
                             scratch: Content, offset: nat, open: bool, accepted: seq<Content>)

  datatype Outcome = Accepted | OutOfOrder | WriteFailed

  function NewSession(owner: nat, filename: string, size: nat): Session {
    Session(owner, filename, size, 0, 0, [], 0, true, [])
  }

  /** Writing at the file position, over what is there. */
  function WriteAt(file: Content, offset: nat, bytes: Content): Content
    requires offset <= |file|
  {
    file[..offset] + bytes + if offset + |bytes| <= |file| then file[offset + |bytes|..] else []
  }

  /** UploadChunk under the session's mutex. `written` bytes reach the file before the copy
      fails; it does not fail when that is all of them. */
  function AppendChunk(s: Session, index: int, bytes: Content, written: nat): (Session, Outcome)
    requires written <= |bytes| && s.offset <= |s.scratch|
  {
    if index != s.nextChunk then (s, OutOfOrder)
    else if !s.open then (s, WriteFailed)
    else
      var t := s.(scratch := WriteAt(s.scratch, s.offset, bytes[..written]), offset := s.offset + written);
      if written < |bytes| then (t, WriteFailed)
      else
        (t.(received := s.received + |bytes|, nextChunk := s.nextChunk + 1, accepted := s.accepted + [bytes]), Accepted)
  }

  /** CompleteUpload under the session's mutex hands the scratch file to Create. */
  predicate Completable(s: Session) {
    s.received == s.declared && s.open
  }

  function Concat(chunks: seq<Content>): Content {
    if chunks == [] then [] else Concat(chunks[..|chunks| - 1]) + chunks[|chunks| - 1]
  }

  /** A session whose chunks were written wholly or not at all. */
  ghost predicate Intact(s: Session) {
    && s.offset <= |s.scratch|
    && s.nextChunk == |s.accepted| && s.received == |Concat(s.accepted)|
    && (s.received <= s.declared ==> s.scratch == Concat(s.accepted))
    && (s.received < s.declared ==> s.offset == |s.scratch|)
  }

  lemma ConcatAppend(chunks: seq<Content>, chunk: Content)
    ensures Concat(chunks + [chunk]) == Concat(chunks) + chunk
  {
    assert (chunks + [chunk])[..|chunks|] == chunks;
  }

  /** Also when an earlier, failed completion has rewound the file: a later chunk then either
      is empty or takes the session past its declared size for good. */
  lemma AppendIntact(s: Session, index: int, bytes: Content, written: nat)
    requires Intact(s) && written <= |bytes| && (written == 0 || written == |bytes|)
    ensures Intact(AppendChunk(s, index, bytes, written).0)
  {
  }

  /** Afterwards the file has the bytes at the offset and is as before elsewhere. */
  lemma WriteAtIs(file: Content, offset: nat, bytes: Content, i: nat)
    requires offset <= |file| && i < |WriteAt(file, offset, bytes)|
    ensures |WriteAt(file, offset, bytes)| == if offset + |bytes| <= |file| then |file| else offset + |bytes|
    ensures WriteAt(file, offset, bytes)[i] == if offset <= i < offset + |bytes| then bytes[i - offset] else file[i]
  {
  }

  /** A chunk counts exactly when its index is next, the file is open and the copy got through.
      A wrong index or a closed file changes nothing, so a chunk sent twice counts once. */
  lemma ChunkAcceptedIff(s: Session, index: int, bytes: Content, written: nat)
    requires written <= |bytes| && s.offset <= |s.scratch|
    ensures var (t, outcome) := AppendChunk(s, index, bytes, written);
            && (outcome == Accepted <==> index == s.nextChunk && s.open && written == |bytes|)
            && (outcome == OutOfOrder <==> index != s.nextChunk)
            && (index != s.nextChunk || !s.open ==> t == s)
            && (t.received, t.nextChunk, t.accepted)
               == (if outcome == Accepted then (s.received + |bytes|, s.nextChunk + 1, s.accepted + [bytes])
                   else (s.received, s.nextChunk, s.accepted))
            && (t.owner, t.filename, t.declared, t.open) == (s.owner, s.filename, s.declared, s.open)
            && (outcome == Accepted ==> AppendChunk(t, index, bytes, written) == (t, OutOfOrder))
  {
  }

  // ---- The server -------------------------------------------------------------------------

  /** A row made by completing a session, and how many chunks had been accepted by then. */
  datatype Made = Made(session: nat, row: Row, chunks: nat)

  /** Sessions by reference, the id table, the file tables, and the rows made so far. */
  datatype Server = Server(sessions: seq<Session>, table: map<string, nat>, tables: Tables, made: seq<Made>)

  datatype Step =
    | Initiate(owner: nat, filename: string, size: int, id: string)
    | Chunk(session: nat, index: int, bytes: Content, written: nat)
    | Complete(session: nat, saved: bool, read: nat)
    | Forget(id: string)
    | Close(session: nat)
    | Other(tables: Tables)

  ghost predicate Enabled(x: Server, step: Step) {
    match step
    case Initiate(_, _, _, id) => id !in x.table
    case Chunk(i, _, bytes, written) => i < |x.sessions| && written <= |bytes|
    case Complete(i, _, read) => i < |x.sessions| && read <= |x.sessions[i].scratch|
    case Forget(_) => true
    case Close(i) => i < |x.sessions|
    case Other(_) => true
  }

  /** InitiateUpload's checks. */
  predicate Initiable(filename: string, size: int) {
    filename != "" && 0 <= size <= MAX_UPLOAD_SESSION_SIZE
  }

  function Take(x: Server, step: Step): Server
    requires Enabled(x, step) && forall i :: 0 <= i < |x.sessions| ==> x.sessions[i].offset <= |x.sessions[i].scratch|
  {
    match step
    case Initiate(owner, filename, size, id) =>
      if !Initiable(filename, size) then x
      else x.(sessions := x.sessions + [NewSession(owner, filename, size)], table := x.table[id := |x.sessions|])
    case Chunk(i, index, bytes, written) =>
      x.(sessions := x.sessions[i := AppendChunk(x.sessions[i], index, bytes, written).0])
    case Complete(i, saved, read) => CompleteStep(x, i, saved, read)
    case Forget(id) => x.(table := x.table - {id})
    case Close(i) => x.(sessions := x.sessions[i := x.sessions[i].(open := false)])
    case Other(tables) => x.(tables := tables)
  }

  /** Rewind and Create. When storing fails (`saved` is false), `read` bytes had been read. */
  function CompleteStep(x: Server, i: nat, saved: bool, read: nat): Server
    requires i < |x.sessions| && read <= |x.sessions[i].scratch|
  {
    var s := x.sessions[i];
    if !Completable(s) then x
    else
      var c := CreateFile(x.tables, s.owner, s.filename, s.scratch);
      if saved && c.Created? then
        x.(sessions := x.sessions[i := s.(offset := |s.scratch|)], tables := c.tables,
           made := x.made + [Made(i, c.row, |s.accepted|)])
      else x.(sessions := x.sessions[i := s.(offset := read)])
  }

  /** A completion makes a row exactly when the session has its declared number of bytes, its
      file is open, and saving and Create succeed; it is what one upload of the scratch file
      makes. Otherwise no table changes. */
  lemma CompletionMakesRowIff(x: Server, i: nat, saved: bool, read: nat)
    requires i < |x.sessions| && read <= |x.sessions[i].scratch|
    ensures var s, y := x.sessions[i], CompleteStep(x, i, saved, read);
            var c := CreateFile(x.tables, s.owner, s.filename, s.scratch);
            && (if s.received == s.declared && s.open && saved && c.Created?
                then y.tables == c.tables && y.made == x.made + [Made(i, c.row, |s.accepted|)]
                else y.tables == x.tables && y.made == x.made)
            && y.table == x.table && |y.sessions| == |x.sessions|
            && (forall j :: 0 <= j < |x.sessions| && j != i ==> y.sessions[j] == x.sessions[j])
            && y.sessions[i]
               == s.(offset := if s.received != s.declared || !s.open then s.offset
                               else if saved && c.Created? then |s.scratch| else read)
  {
  }

  /** What the other steps do, and what they leave alone. */
  lemma StepTouches(x: Server, step: Step)
    requires Sized(x) && Enabled(x, step) && !step.Complete?
    ensures var y := Take(x, step);
            && y.made == x.made && (!step.Other? ==> y.tables == x.tables)
            && (!step.Initiate? && !step.Forget? ==> y.table == x.table)
            && (forall j :: 0 <= j < |x.sessions| && !(step.Chunk? && step.session == j)
                            && !(step.Close? && step.session == j) ==>
                  j < |y.sessions| && y.sessions[j] == x.sessions[j])
            && (step.Initiate? ==>
                  if step.filename != "" && 0 <= step.size <= 512 * 1024 * 1024 then
                    && y.table == x.table[step.id := |x.sessions|]
                    && y.sessions
                       == x.sessions + [Session(step.owner, step.filename, step.size, 0, 0, [], 0, true, [])]
                  else y == x)
            && (step.Chunk? ==>
                  y.sessions[step.session]
                  == AppendChunk(x.sessions[step.session], step.index, step.bytes, step.written).0)
            && (step.Forget? ==> y.table == x.table - {step.id} && y.sessions == x.sessions)
            && (step.Close? ==> y.sessions[step.session] == x.sessions[step.session].(open := false))
            && (step.Other? ==> y == x.(tables := step.tables))
  {
  }

  /** A whole completion always gives the session up, whether or not it made a row, and another
      owner's changes nothing. */
  lemma CompletionDiscards(x: Server, owner: nat, id: string, saved: bool, read: nat)
    requires id in x.table && x.table[id] < |x.sessions| && read <= |x.sessions[x.table[id]].scratch|
    ensures var y, i := CompleteCall(x, owner, id, saved, read), x.table[id];
            if x.sessions[i].owner != owner then y == x
            else
              && y.table == x.table - {id}
              && !y.sessions[i].open && y.tables == CompleteStep(x, i, saved, read).tables
  {
  }

  /** No copy stops part-way; it may fail before its first byte. */
  predicate WholeWrites(step: Step) {
    step.Chunk? ==> step.written == 0 || step.written == |step.bytes|
  }

  /** What a made row holds: the declared number of bytes, namely the accepted chunks in
      index order up to the moment of completion. */
  ghost predicate Faithful(x: Server, m: Made) {
    && m.session < |x.sessions| && m.chunks <= |x.sessions[m.session].accepted|
    && m.row.body == Concat(x.sessions[m.session].accepted[..m.chunks])
    && |m.row.body| == x.sessions[m.session].declared
    && m.row.owner == x.sessions[m.session].owner
    && m.row.hash == Digest(m.row.body)
  }

  ghost predicate Ok(x: Server) {
    && (forall i :: 0 <= i < |x.sessions| ==> Intact(x.sessions[i]))
    && (forall m :: m in x.made ==> Faithful(x, m))
  }

  lemma UpdateSessions(x: Server, y: Server, i: nat, t: Session)
    requires Ok(x) && i < |x.sessions| && y.sessions == x.sessions[i := t] && y.made == x.made
    requires Intact(t) && t.declared == x.sessions[i].declared && t.owner == x.sessions[i].owner
    requires x.sessions[i].accepted <= t.accepted
    ensures Ok(y)
  {
    forall m | m in y.made
      ensures Faithful(y, m)
    {
      assert Faithful(x, m);
      if m.session == i {
        assert t.accepted[..m.chunks] == x.sessions[i].accepted[..m.chunks];
      }
    }
  }

  lemma StepOk(x: Server, step: Step)
    requires Ok(x) && Enabled(x, step) && WholeWrites(step)
    ensures Ok(Take(x, step))
  {
    var y := Take(x, step);
    match step
    case Initiate(owner, filename, size, id) =>
      forall m | m in y.made
        ensures Faithful(y, m)
      {
        assert Faithful(x, m);
      }
    case Chunk(i, index, bytes, written) =>
      AppendIntact(x.sessions[i], index, bytes, written);
      UpdateSessions(x, y, i, y.sessions[i]);
    case Complete(i, saved, read) =>
      CompleteOk(x, i, saved, read);
    case Forget(id) =>
      OnlySessionsMatter(x, y);
    case Close(i) =>
      UpdateSessions(x, y, i, y.sessions[i]);
    case Other(tables) =>
      OnlySessionsMatter(x, y);
  }

  lemma OnlySessionsMatter(x: Server, y: Server)
    requires Ok(x) && y.sessions == x.sessions && y.made == x.made
    ensures Ok(y)
  {
  }

  lemma CompleteOk(x: Server, i: nat, saved: bool, read: nat)
    requires Ok(x) && i < |x.sessions| && read <= |x.sessions[i].scratch|
    ensures Ok(CompleteStep(x, i, saved, read))
  {
    var s, y := x.sessions[i], CompleteStep(x, i, saved, read);
    if Completable(s) {
      var z := x.(sessions := y.sessions);
      UpdateSessions(x, z, i, y.sessions[i]);
      assert s.accepted[..|s.accepted|] == s.accepted;
      forall m | m in y.made
        ensures Faithful(y, m)
      {
        if m in z.made {
          assert Faithful(z, m);
        }
      }
    }
  }

  ghost predicate IsRun(x: Server, steps: seq<Step>)
    requires Ok(x)
    decreases |steps|
  {
    steps == [] || (Enabled(x, steps[0]) && WholeWrites(steps[0])
        && (StepOk(x, steps[0]); IsRun(Take(x, steps[0]), steps[1..])))
  }

  ghost function EndOf(x: Server, steps: seq<Step>): Server
    requires Ok(x) && IsRun(x, steps)
    decreases |steps|
  {
    if steps == [] then x else (StepOk(x, steps[0]); EndOf(Take(x, steps[0]), steps[1..]))
  }

  /** Upload safety: under every interleaving of initiate, chunk, complete, forget (abort or
      expiry), close and other people's writes, without partial writes, every row made from a
      session is faithful to it. */
  lemma {:induction false} UploadsFaithful(x: Server, steps: seq<Step>)
    requires Ok(x) && IsRun(x, steps)
    ensures Ok(EndOf(x, steps))
    decreases |steps|
  {
    if steps != [] {
      StepOk(x, steps[0]);
      UploadsFaithful(Take(x, steps[0]), steps[1..]);
    }
  }

  // ---- Completed at most once -------------------------------------------------------------

  /** One whole CompleteUpload call with nothing in between: find the session, finish it, and
      discard it whether or not that worked. */
  function CompleteCall(x: Server, owner: nat, id: string, saved: bool, read: nat): Server
    requires id in x.table ==> x.table[id] < |x.sessions| && read <= |x.sessions[x.table[id]].scratch|
  {
    if id !in x.table || x.sessions[x.table[id]].owner != owner then x
    else
      var i := x.table[id];
      var y := CompleteStep(x, i, saved, read);
      y.(table := y.table - {id}, sessions := y.sessions[i := y.sessions[i].(open := false)])
  }

  /** Ids and sessions stand one to one, and a session a row was made from is in the table no
      more; hence no session has made two rows. */
  ghost predicate OnceOnly(x: Server) {
    && (forall id :: id in x.table ==> x.table[id] < |x.sessions|)
    && (forall a, b :: a in x.table && b in x.table && x.table[a] == x.table[b] ==> a == b)
    && (forall j, id :: 0 <= j < |x.made| && id in x.table ==> x.table[id] != x.made[j].session)
    && (forall j :: 0 <= j < |x.made| ==> x.made[j].session < |x.sessions|)
    && (forall j, k :: 0 <= j < k < |x.made| ==> x.made[j].session != x.made[k].session)
  }

  /** If completions are atomic, every call keeps it: a session is completed at most once. */
  lemma AtomicCompletesOnce(x: Server, owner: nat, id: string, saved: bool, read: nat)
    requires OnceOnly(x)
    requires id in x.table ==> read <= |x.sessions[x.table[id]].scratch|
    ensures OnceOnly(CompleteCall(x, owner, id, saved, read))
  {
    if id in x.table && x.sessions[x.table[id]].owner == owner {
      var y, z := CompleteCall(x, owner, id, saved, read), CompleteStep(x, x.table[id], saved, read);
      var now := z.made[|x.made|..];
      assert z.made == x.made + now;
      DiscardedOnce(x, y, id, now);
    }
  }

  /** Discarding a session keeps it, whether or not a row has just been made from it. */
  lemma DiscardedOnce(x: Server, y: Server, id: string, now: seq<Made>)
    requires OnceOnly(x) && id in x.table && |y.sessions| == |x.sessions| && y.table == x.table - {id}
    requires y.made == x.made + now && |now| <= 1 && forall m :: m in now ==> m.session == x.table[id]
    ensures OnceOnly(y)
  {
    forall j | 0 <= j < |y.made|
      ensures y.made[j].session == x.table[id] || (j < |x.made| && y.made[j] == x.made[j])
    {
      assert j >= |x.made| ==> y.made[j] in now;
    }
  }

  /** A whole completion, or any other step. */
  datatype Call = Whole(owner: nat, id: string, saved: bool, read: nat) | Single(step: Step)

  ghost predicate Sized(x: Server) {
    forall i :: 0 <= i < |x.sessions| ==> x.sessions[i].offset <= |x.sessions[i].scratch|
  }

  ghost predicate Possible(x: Server, c: Call) {
    match c
    case Whole(_, id, _, read) =>
      id in x.table ==> x.table[id] < |x.sessions| && read <= |x.sessions[x.table[id]].scratch|
    case Single(step) => Enabled(x, step) && !step.Complete?
  }

  function After(x: Server, c: Call): Server
    requires Sized(x) && Possible(x, c)
  {
    match c
    case Whole(owner, id, saved, read) => CompleteCall(x, owner, id, saved, read)
    case Single(step) => Take(x, step)
  }

  lemma OthersKeepOnce(x: Server, step: Step)
    requires OnceOnly(x) && Sized(x) && Enabled(x, step) && !step.Complete?
    ensures OnceOnly(Take(x, step))
  {
  }

  lemma WholeKeepsSized(x: Server, owner: nat, id: string, saved: bool, read: nat)
    requires Sized(x) && Possible(x, Whole(owner, id, saved, read))
    ensures Sized(CompleteCall(x, owner, id, saved, read))
  {
  }

  lemma OthersKeepSized(x: Server, step: Step)
    requires Sized(x) && Enabled(x, step) && !step.Complete?
    ensures Sized(Take(x, step))
  {
  }

  lemma CallKeepsOnce(x: Server, c: Call)
    requires OnceOnly(x) && Sized(x) && Possible(x, c)
    ensures OnceOnly(After(x, c)) && Sized(After(x, c))
  {
    match c
    case Whole(owner, id, saved, read) =>
      AtomicCompletesOnce(x, owner, id, saved, read);
      WholeKeepsSized(x, owner, id, saved, read);
    case Single(step) =>
      OthersKeepOnce(x, step);
      OthersKeepSized(x, step);
  }

  ghost predicate IsAtomicRun(x: Server, calls: seq<Call>)
    decreases |calls|
  {
    calls == [] || (Sized(x) && Possible(x, calls[0]) && IsAtomicRun(After(x, calls[0]), calls[1..]))
  }

  ghost function EndOfCalls(x: Server, calls: seq<Call>): Server
    requires IsAtomicRun(x, calls)
    decreases |calls|
  {
    if calls == [] then x else EndOfCalls(After(x, calls[0]), calls[1..])
  }

  /** So over every run in which completions are atomic, partial writes included, no session
      makes two rows. */
  lemma {:induction false} CompletedAtMostOnce(x: Server, calls: seq<Call>)
    requires OnceOnly(x) && Sized(x) && IsAtomicRun(x, calls)
    ensures OnceOnly(EndOfCalls(x, calls))
    decreases |calls|
  {
    if calls != [] {
      CallKeepsOnce(x, calls[0]);
      CompletedAtMostOnce(After(x, calls[0]), calls[1..]);
    }
  }

  /** Atomicity is needed: two overlapping calls that both found a full session make two rows
      from it, since the session's mutex is released before the session is removed. */
  lemma OverlappingCompletesMakeTwo(x: Server, i: nat)
    requires i < |x.sessions| && Completable(x.sessions[i])
    requires CreateFile(x.tables, x.sessions[i].owner, x.sessions[i].filename, x.sessions[i].scratch).Created?
    requires var y := CompleteStep(x, i, true, 0);
             CreateFile(y.tables, x.sessions[i].owner, x.sessions[i].filename, x.sessions[i].scratch).Created?
    ensures var z := CompleteStep(CompleteStep(x, i, true, 0), i, true, 0);
            && |z.made| == |x.made| + 2
            && z.made[|x.made|].session == z.made[|x.made| + 1].session == i
            && z.made[|x.made|].row.body == z.made[|x.made| + 1].row.body
  {
  }

  /** Steps of any kind, partial writes and completions included. */
  ghost predicate IsAnyRun(x: Server, steps: seq<Step>)
    decreases |steps|
  {
    steps == [] || (Sized(x) && Enabled(x, steps[0]) && IsAnyRun(Take(x, steps[0]), steps[1..]))
  }

  ghost function EndOfAny(x: Server, steps: seq<Step>): Server
    requires IsAnyRun(x, steps)
    decreases |steps|
  {
    if steps == [] then x else EndOfAny(Take(x, steps[0]), steps[1..])
  }

  /** The step closes the session's file, or takes the session past its declared size. */
  predicate Spoils(x: Server, step: Step, i: nat)
    requires Sized(x) && Enabled(x, step)
  {
    || step == Close(i)
    || (step.Chunk? && step.session == i && step.bytes != []
        && AppendChunk(x.sessions[i], step.index, step.bytes, step.written).1.Accepted?)
  }

  ghost predicate Spoiled(x: Server, steps: seq<Step>, i: nat)
    requires IsAnyRun(x, steps)
    decreases |steps|
  {
    steps != [] && (Spoils(x, steps[0], i) || Spoiled(Take(x, steps[0]), steps[1..], i))
  }

  /** Nothing mends a session that is closed or too long. */
  ghost predicate BeyondRepair(x: Server, i: nat) {
    i < |x.sessions| && (!x.sessions[i].open || x.sessions[i].received > x.sessions[i].declared)
  }

  lemma StepOnFull(x: Server, step: Step, i: nat)
    requires Sized(x) && Enabled(x, step) && i < |x.sessions|
    ensures i < |Take(x, step).sessions|
    ensures Completable(x.sessions[i]) ==>
              if Spoils(x, step, i) then BeyondRepair(Take(x, step), i) else Completable(Take(x, step).sessions[i])
    ensures BeyondRepair(x, i) ==> BeyondRepair(Take(x, step), i)
  {
  }

  lemma {:induction false} StaysBeyondRepair(x: Server, steps: seq<Step>, i: nat)
    requires IsAnyRun(x, steps) && BeyondRepair(x, i)
    ensures BeyondRepair(EndOfAny(x, steps), i)
    decreases |steps|
  {
    if steps != [] {
      StepOnFull(x, steps[0], i);
      StaysBeyondRepair(Take(x, steps[0]), steps[1..], i);
    }
  }

  lemma {:induction false} StaysFullIff(x: Server, steps: seq<Step>, i: nat)
    requires IsAnyRun(x, steps) && i < |x.sessions| && Completable(x.sessions[i])
    ensures i < |EndOfAny(x, steps).sessions|
    ensures Completable(EndOfAny(x, steps).sessions[i]) <==> !Spoiled(x, steps, i)
    decreases |steps|
  {
    if steps != [] {
      var y := Take(x, steps[0]);
      StepOnFull(x, steps[0], i);
      if Spoils(x, steps[0], i) {
        StaysBeyondRepair(y, steps[1..], i);
      } else {
        StaysFullIff(y, steps[1..], i);
      }
    }
  }

  /** Completed twice, exactly: after a completion that made a row and any further steps, a
      second completion whose save and Create would succeed makes another row from the session
      if and only if no step in between closed the session or had a non-empty chunk accepted. */
  lemma CompletedAgainIff(x: Server, i: nat, read: nat, steps: seq<Step>, read2: nat)
    requires i < |x.sessions| && read <= |x.sessions[i].scratch|
    requires |CompleteStep(x, i, true, read).made| == |x.made| + 1 && IsAnyRun(CompleteStep(x, i, true, read), steps)
    requires var z := EndOfAny(CompleteStep(x, i, true, read), steps);
             && i < |z.sessions| && read2 <= |z.sessions[i].scratch|
             && CreateFile(z.tables, z.sessions[i].owner, z.sessions[i].filename, z.sessions[i].scratch).Created?
    ensures var y := CompleteStep(x, i, true, read);
            var z := EndOfAny(y, steps);
            var w := CompleteStep(z, i, true, read2);
            if Spoiled(y, steps, i) then w == z
            else |w.made| == |z.made| + 1 && w.made[..|z.made|] == z.made && w.made[|z.made|].session == i
  {
    StaysFullIff(CompleteStep(x, i, true, read), steps, i);
  }

  /** That happens from the empty server: an empty file, announced once and completed twice. */
  lemma EmptyFileTwice()
    ensures var s := NewSession(0, "a", 0);
            var x := Server([s], map["id" := 0], EMPTY_TABLES, []);
            var z := CompleteStep(CompleteStep(x, 0, true, 0), 0, true, 0);
            && Enabled(Server([], map[], EMPTY_TABLES, []), Initiate(0, "a", 0, "id"))
            && Take(Server([], map[], EMPTY_TABLES, []), Initiate(0, "a", 0, "id")) == x
            && |z.made| == 2 && z.made[0].session == z.made[1].session == 0
            && z.made[0].row.name == "a" && z.made[1].row.name == DedupedName("a", 1)
  {
    var t := Insert(EMPTY_TABLES, 0, "a", []);
    CreateFreeName(EMPTY_TABLES, 0, "a", []);
    TwoNames(t, NewRow(EMPTY_TABLES, 0, "a", []));
    CompletedAgainIff(Server([NewSession(0, "a", 0)], map["id" := 0], EMPTY_TABLES, []), 0, 0, [], 0);
  }

  lemma TwoNames(t: Tables, row: Row)
    requires t.files == [row] && row.owner == 0 && row.name == "a"
    ensures CreateFile(t, 0, "a", [])
            == Created(Insert(t, 0, DedupedName("a", 1), []), NewRow(t, 0, DedupedName("a", 1), []))
  {
    DedupedDiffers("a", 1);
    assert FindName([row], 0, "a") == Some(row) && FindName([row], 0, DedupedName("a", 1)).None?;
    CreateNumberedName(t, 0, "a", []);
  }
}
