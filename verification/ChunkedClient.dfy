/** The upload service as objects, and the clients' slicing loop on top of it: a chunked upload
    ends in the same row as a single-shot one. */
module ChunkedClient {
  import opened Basics
  import opened Repo
  import opened FileService
  import opened Uploads

  class UploadSession {
    const owner: nat
    const filename: string
    const declared: nat
    var received: nat
    var nextChunk: nat
    var scratch: Content
    var offset: nat
    var open: bool
    ghost var accepted: seq<Content>

    ghost function Model(): Session
      reads this
    {
      Session(owner, filename, declared, received, nextChunk, scratch, offset, open, accepted)
    }

    constructor (owner: nat, filename: string, declared: nat)
      ensures Model() == NewSession(owner, filename, declared)
    {
      this.owner, this.filename, this.declared := owner, filename, declared;
      received, nextChunk, scratch, offset, open, accepted := 0, 0, [], 0, true, [];
    }

    /** Only an index that is next is taken; the copy may stop after `written` bytes. */
    method Append(index: int, bytes: Content, written: nat) returns (outcome: Outcome)
      requires written <= |bytes| && offset <= |scratch|
      modifies this
      ensures (Model(), outcome) == AppendChunk(old(Model()), index, bytes, written)
    {
      if index != nextChunk {
        return OutOfOrder;
      }
      if !open {
        return WriteFailed;
      }
      scratch := WriteAt(scratch, offset, bytes[..written]);
      offset := offset + written;
      if written < |bytes| {
        return WriteFailed;
      }
      received := received + |bytes|;
      nextChunk := nextChunk + 1;
      accepted := accepted + [bytes];
      return Accepted;
    }

    /** The part of CompleteUpload that runs under the session's mutex: if all bytes are there,
        rewind the scratch file and create the row from it. */
    method Assemble(repo: FileRepo) returns (created: Option<Row>)
      requires Valid(repo.State())
      modifies this, repo
      ensures Valid(repo.State())
      ensures Model() == old(if Completable(Model()) then Model().(offset := |scratch|) else Model())
      ensures if old(Completable(Model())) then SingleShot(old(repo.State()), owner, filename, scratch, repo.State(),
                                                           created)
              else created.None? && repo.State() == old(repo.State())
    {
      if received != declared || !open {
        return None;
      }
      offset := |scratch|;
      created := CreateRow(repo, owner, filename, scratch);
    }
  }

  class UploadManager {
    var sessions: map<string, UploadSession>

    constructor ()
      ensures sessions == map[]
    {
      sessions := map[];
    }

    method InitiateUpload(owner: nat, filename: string, size: int, id: string) returns (started: bool)
      requires id !in sessions
      modifies this
      ensures started <==> filename != "" && 0 <= size <= 512 * 1024 * 1024
      ensures !started ==> sessions == old(sessions)
      ensures started ==>
                && id in sessions && fresh(sessions[id]) && sessions == old(sessions)[id := sessions[id]]
                && sessions[id].Model() == Session(owner, filename, size, 0, 0, [], 0, true, [])
    {
      if filename == "" || size < 0 || size > MAX_UPLOAD_SESSION_SIZE {
        return false;
      }
      var session := new UploadSession(owner, filename, size);
      sessions := sessions[id := session];
      return true;
    }

    /** A caller never reaches another owner's session. */
    method Get(owner: nat, id: string) returns (session: UploadSession?)
      ensures session != null <==> id in sessions && sessions[id].owner == owner
      ensures session != null ==> session == sessions[id]
    {
      if id !in sessions || sessions[id].owner != owner {
        return null;
      }
      return sessions[id];
    }

    method Remove(id: string)
      modifies this, if id in sessions then {sessions[id]} else {}
      ensures sessions == old(sessions) - {id}
      ensures id in old(sessions) ==> old(sessions)[id].Model() == old(sessions[id].Model()).(open := false)
    {
      if id in sessions {
        sessions[id].open := false;
        sessions := sessions - {id};
      }
    }

    method CompleteUpload(repo: FileRepo, owner: nat, id: string) returns (created: Option<Row>)
      requires Valid(repo.State())
      modifies this, repo, if id in sessions then {sessions[id]} else {}
      ensures Valid(repo.State())
      ensures old(id !in sessions || sessions[id].owner != owner) ==>
                created.None? && repo.State() == old(repo.State()) && sessions == old(sessions)
      ensures old(id in sessions && sessions[id].owner == owner) ==> sessions == old(sessions) - {id}
      ensures old(id in sessions && sessions[id].owner == owner && !Completable(sessions[id].Model())) ==>
                created.None? && repo.State() == old(repo.State())
      ensures old(id in sessions && sessions[id].owner == owner && Completable(sessions[id].Model())) ==>
                SingleShot(old(repo.State()), owner, old(sessions[id].filename), old(sessions[id].scratch),
                           repo.State(), created)
    {
      var session := Get(owner, id);
      if session == null {
        return None;
      }
      created := session.Assemble(repo);
      Remove(id);
    }

    method AbortUpload(owner: nat, id: string) returns (found: bool)
      modifies this, if id in sessions then {sessions[id]} else {}
      ensures found <==> old(id in sessions && sessions[id].owner == owner)
      ensures sessions == if found then old(sessions) - {id} else old(sessions)
    {
      var session := Get(owner, id);
      found := session != null;
      if found {
        Remove(id);
      }
    }
  }

  /** What one POST of the whole file does to the tables, and what it answers. */
  ghost predicate SingleShot(s: Tables, owner: nat, filename: string, file: Content, t: Tables, created: Option<Row>) {
    match CreateFile(s, owner, filename, file)
    case Created(tables, row) => t == tables && created == Some(row)
    case InvalidFilename => t == s && created.None?
    case NamesExhausted => t == s && created.None?
  }

  // ---- Slicing ----------------------------------------------------------------------------

  /** file.slice(offset, offset + chunkSize): the end is clamped to the file. */
  function Slice(file: Content, offset: nat, chunkSize: nat): Content
    requires offset <= |file|
  {
    file[offset..if offset + chunkSize <= |file| then offset + chunkSize else |file|]
  }

  /** The first k slices. */
  function Slices(file: Content, chunkSize: nat, k: nat): seq<Content>
    requires k == 0 || (k - 1) * chunkSize <= |file|
    decreases k
  {
    if k == 0 then []
    else
      SliceStart(file, chunkSize, k);
      Slices(file, chunkSize, k - 1) + [Slice(file, (k - 1) * chunkSize, chunkSize)]
  }

  lemma SliceStart(file: Content, chunkSize: nat, k: nat)
    requires k > 0 && (k - 1) * chunkSize <= |file|
    ensures 0 <= (k - 1) * chunkSize
    ensures k == 1 || (k - 2) * chunkSize <= |file|
  {
  }

  function Min(a: nat, b: nat): nat {
    if a <= b then a else b
  }

  /** Slices are consecutive: the first k of them are the file's first k chunk sizes of bytes. */
  lemma {:induction false} SlicesAreFile(file: Content, chunkSize: nat, k: nat)
    requires k == 0 || (k - 1) * chunkSize <= |file|
    ensures 0 <= k * chunkSize
    ensures Concat(Slices(file, chunkSize, k)) == file[..Min(k * chunkSize, |file|)]
    ensures |Slices(file, chunkSize, k)| == k
  {
    if k > 0 {
      SliceStart(file, chunkSize, k);
      SlicesAreFile(file, chunkSize, k - 1);
      NextStart(chunkSize, k);
      ConcatAppend(Slices(file, chunkSize, k - 1), Slice(file, (k - 1) * chunkSize, chunkSize));
      SliceExtends(file, (k - 1) * chunkSize, chunkSize);
    }
  }

  lemma NextStart(chunkSize: nat, k: nat)
    requires k > 0
    ensures k * chunkSize == (k - 1) * chunkSize + chunkSize
  {
  }

  lemma SliceExtends(file: Content, start: nat, chunkSize: nat)
    requires start <= |file|
    ensures file[..Min(start, |file|)] + Slice(file, start, chunkSize) == file[..Min(start + chunkSize, |file|)]
  {
  }

  /** How many slices a file takes: its size over the chunk size, rounded up. */
  function SliceCount(size: nat, chunkSize: nat): nat
    requires chunkSize > 0
  {
    (size + chunkSize - 1) / chunkSize
  }

  lemma SliceCountIs(size: nat, chunkSize: nat, k: nat)
    requires chunkSize > 0 && size <= k * chunkSize && (k == 0 || (k - 1) * chunkSize < size)
    ensures k == SliceCount(size, chunkSize)
  {
    var n := size + chunkSize - 1;
    if k > 0 {
      assert k * chunkSize == (k - 1) * chunkSize + chunkSize;
      DivIs(n, chunkSize, k);
    } else {
      DivIs(n, chunkSize, 0);
    }
  }

  lemma SliceCountExceeds(size: nat, chunkSize: nat, k: nat)
    requires chunkSize > 0 && k * chunkSize < size
    ensures SliceCount(size, chunkSize) > k
  {
    var n := size + chunkSize - 1;
    var q := n / chunkSize;
    assert n == q * chunkSize + n % chunkSize;
    MulMonotone(q, k, chunkSize);
  }

  lemma DivIs(n: nat, d: nat, k: nat)
    requires d > 0 && k * d <= n < k * d + d
    ensures n / d == k
  {
    var q := n / d;
    assert n == q * d + n % d;
    MulMonotone(q + 1, k, d);
    MulMonotone(k + 1, q, d);
    assert (q + 1) * d == q * d + d && (k + 1) * d == k * d + d;
  }

  lemma MulMonotone(a: nat, b: nat, d: nat)
    ensures a <= b ==> a * d <= b * d
  {
  }

  /** Chunks are never empty nor oversized, and each report is the bytes sent so far. */
  ghost predicate Tally(slices: seq<Content>, progress: seq<nat>, chunkSize: nat) {
    && |slices| == |progress|
    && (forall i :: 0 <= i < |slices| ==> 0 < |slices[i]| <= chunkSize)
    && (forall i :: 0 <= i < |slices| ==> progress[i] == |Concat(slices[..i + 1])|)
  }

  lemma TallyStep(slices: seq<Content>, progress: seq<nat>, chunk: Content, chunkSize: nat)
    requires Tally(slices, progress, chunkSize) && 0 < |chunk| <= chunkSize
    ensures Tally(slices + [chunk], progress + [|Concat(slices)| + |chunk|], chunkSize)
  {
    var next, reports := slices + [chunk], progress + [|Concat(slices)| + |chunk|];
    ConcatAppend(slices, chunk);
    forall i | 0 <= i < |next|
      ensures reports[i] == |Concat(next[..i + 1])|
    {
      assert i < |slices| ==> next[..i + 1] == slices[..i + 1];
      assert i == |slices| ==> next[..i + 1] == next;
    }
  }

  /** What the reports of a chunked upload say about the file. */
  ghost predicate Reported(file: Content, chunkSize: nat, slices: seq<Content>, progress: seq<nat>)
    requires chunkSize > 0
  {
    |slices| == SliceCount(|file|, chunkSize) && Concat(slices) == file && Tally(slices, progress, chunkSize)
  }

  /** One more slice, while some of the file is left. */
  lemma SliceStep(file: Content, chunkSize: nat, k: nat)
    requires chunkSize > 0 && k * chunkSize < |file|
    ensures k == 0 || (k - 1) * chunkSize <= |file|
    ensures (k + 1) * chunkSize == k * chunkSize + chunkSize
    ensures var chunk, next := Slice(file, k * chunkSize, chunkSize), Min((k + 1) * chunkSize, |file|);
            && 0 < |chunk| <= chunkSize && k * chunkSize + |chunk| == next
            && file[..k * chunkSize] + chunk == file[..next]
            && Slices(file, chunkSize, k + 1) == Slices(file, chunkSize, k) + [chunk]
            && Concat(Slices(file, chunkSize, k + 1)) == file[..next]
            && |Slices(file, chunkSize, k)| == k
  {
    if k > 0 {
      assert (k - 1) * chunkSize + chunkSize == k * chunkSize;
    }
    SlicesAreFile(file, chunkSize, k);
    SlicesAreFile(file, chunkSize, k + 1);
  }

  /** The session after the file's first `sent` bytes have gone through. */
  ghost predicate Holding(session: UploadSession, file: Content, index: nat, sent: nat)
    reads session
    requires sent <= |file|
  {
    && session.open && session.nextChunk == index && session.received == sent
    && session.scratch == file[..sent] && session.offset == sent
  }

  method SendChunk(session: UploadSession, file: Content, index: nat, offset: nat, chunkSize: nat)
    returns (chunk: Content)
    requires chunkSize > 0 && offset < |file| && Holding(session, file, index, offset)
    modifies session
    ensures chunk == Slice(file, offset, chunkSize) && offset + |chunk| == Min(offset + chunkSize, |file|)
    ensures Holding(session, file, index + 1, offset + |chunk|)
  {
    chunk := Slice(file, offset, chunkSize);
    var outcome := session.Append(index, chunk, |chunk|);
    assert chunk[..|chunk|] == chunk;
    assert WriteAt(file[..offset], offset, chunk) == file[..offset] + chunk == file[..offset + |chunk|];
  }

  /** Where the slicing loop is after `k` rounds. */
  ghost predicate Rounds(file: Content, chunkSize: nat, k: nat, offset: nat, uploaded: nat, slices: seq<Content>) {
    && offset == k * chunkSize && (k == 0 || (k - 1) * chunkSize < |file|)
    && uploaded == Min(offset, |file|)
    && slices == Slices(file, chunkSize, k) && |Concat(slices)| == uploaded
  }

  lemma NextRound(file: Content, chunkSize: nat, k: nat, offset: nat, uploaded: nat, slices: seq<Content>,
                  chunk: Content)
    requires chunkSize > 0 && Rounds(file, chunkSize, k, offset, uploaded, slices) && offset < |file|
    requires chunk == Slice(file, offset, chunkSize)
    ensures 0 < |chunk| <= chunkSize && uploaded == offset
    ensures Rounds(file, chunkSize, k + 1, offset + chunkSize, uploaded + |chunk|, slices + [chunk])
  {
    SliceStep(file, chunkSize, k);
  }

  /** What a session holds that was given up after `calls` chunks, `reached` bytes of the next
      request having come through. */
  function Received(file: Content, chunkSize: nat, calls: nat, reached: nat): Content {
    file[..Min(calls * chunkSize + Min(reached, chunkSize), |file|)]
  }

  /** The request that throws: it may still reach the server, in part or, if only its answer is
      lost, as a whole. */
  method LoseChunk(session: UploadSession, file: Content, index: nat, offset: nat, chunkSize: nat, reached: nat)
    requires chunkSize > 0 && offset == index * chunkSize && offset < |file| && Holding(session, file, index, offset)
    modifies session
    ensures session.scratch == Received(file, chunkSize, index, reached)
  {
    var chunk := Slice(file, offset, chunkSize);
    var written := Min(reached, |chunk|);
    var outcome := session.Append(index, chunk, written);
    assert WriteAt(file[..offset], offset, chunk[..written]) == file[..offset] + chunk[..written];
    assert file[..offset] + chunk[..written] == file[..offset + written];
  }

  /** The slicing loop. The first `calls` chunk requests are acknowledged, the next one throws,
      after `reached` bytes of it. */
  method SendChunks(session: UploadSession, file: Content, chunkSize: nat, calls: nat, reached: nat)
    returns (slices: seq<Content>, progress: seq<nat>, ok: bool)
    requires chunkSize > 0 && session.Model() == NewSession(session.owner, session.filename, |file|)
    modifies session
    ensures ok <==> SliceCount(|file|, chunkSize) <= calls
    ensures !ok ==> session.scratch == Received(file, chunkSize, calls, reached)
    ensures ok ==> session.scratch == file && session.received == |file| && session.open
    ensures ok ==> Reported(file, chunkSize, slices, progress)
  {
    slices, progress := [], [];
    var offset: nat, uploaded: nat, index: nat := 0, 0, 0;
    while offset < |file| && index < calls
      invariant Rounds(file, chunkSize, index, offset, uploaded, slices)
      invariant Tally(slices, progress, chunkSize)
      invariant Holding(session, file, index, uploaded) && index <= calls
      decreases |file| - offset
    {
      ghost var expected := Slice(file, offset, chunkSize);
      NextRound(file, chunkSize, index, offset, uploaded, slices, expected);
      TallyStep(slices, progress, expected, chunkSize);
      var chunk := SendChunk(session, file, index, offset, chunkSize);
      slices := slices + [chunk];
      uploaded := uploaded + |chunk|;
      progress := progress + [uploaded];
      index := index + 1;
      offset := offset + chunkSize;
    }
    ok := offset >= |file|;
    LoopEnds(file, chunkSize, index, offset, uploaded, slices);
    if !ok {
      LoseChunk(session, file, index, offset, chunkSize, reached);
    }
  }

  /** Where the loop stops tells how many slices there are. */
  lemma LoopEnds(file: Content, chunkSize: nat, k: nat, offset: nat, uploaded: nat, slices: seq<Content>)
    requires chunkSize > 0 && Rounds(file, chunkSize, k, offset, uploaded, slices)
    ensures offset < |file| ==> SliceCount(|file|, chunkSize) > k
    ensures offset >= |file| ==> SliceCount(|file|, chunkSize) == k && uploaded == |file| && file[..|file|] == file
    ensures offset >= |file| ==> |slices| == k && Concat(slices) == file
  {
    if offset < |file| {
      SliceCountExceeds(|file|, chunkSize, k);
    } else {
      SlicesAreFile(file, chunkSize, k);
      SliceCountIs(|file|, chunkSize, k);
    }
  }

  /** What becomes of a request: answered, lost on its way, or carried out but its answer lost.
      To the client the last two are the same error. */
  datatype Delivery = Answered | LostRequest | LostAnswer

  /** The tables after one POST of the whole file, whoever learns of it. */
  function AfterSingleShot(s: Tables, owner: nat, filename: string, file: Content): Tables {
    match CreateFile(s, owner, filename, file)
    case Created(tables, _) => tables
    case InvalidFilename => s
    case NamesExhausted => s
  }

  method PostWhole(repo: FileRepo, owner: nat, filename: string, file: Content, post: Delivery)
    returns (created: Option<Row>)
    requires Valid(repo.State())
    modifies repo
    ensures Valid(repo.State())
    ensures repo.State()
            == old(if post.LostRequest? then repo.State() else AfterSingleShot(repo.State(), owner, filename, file))
    ensures if post.Answered? then SingleShot(old(repo.State()), owner, filename, file, repo.State(), created)
            else created.None?
  {
    created := None;
    if !post.LostRequest? {
      created := CreateRow(repo, owner, filename, file);
      if post.LostAnswer? {
        created := None;
      }
    }
  }

  /** The chunked path after the session was made, up to the last answer: what the client
      learns, and whether it thinks it has failed. */
  method SendAndComplete(uploads: UploadManager, repo: FileRepo, owner: nat, filename: string, file: Content,
                         chunkSize: nat, calls: nat, reached: nat, complete: Delivery, id: string)
    returns (created: Option<Row>, slices: seq<Content>, progress: seq<nat>, failed: bool)
    requires Valid(repo.State()) && chunkSize > 0 && id in uploads.sessions
    requires uploads.sessions[id].Model() == NewSession(owner, filename, |file|)
    modifies uploads, repo, uploads.sessions[id]
    ensures Valid(repo.State())
    ensures var through := SliceCount(|file|, chunkSize) <= calls;
            && failed == !(through && complete.Answered?)
            && (through ==> Reported(file, chunkSize, slices, progress))
            && uploads.sessions == old(if through && !complete.LostRequest? then uploads.sessions - {id}
                  else uploads.sessions)
            && repo.State() == old(if through && !complete.LostRequest?
                  then AfterSingleShot(repo.State(), owner, filename, file)
                                   else repo.State())
            && (if failed then created.None? else SingleShot(old(repo.State()), owner, filename, file, repo.State(),
                                                             created))
    ensures id in uploads.sessions ==>
              && uploads.sessions[id].owner == owner
              && uploads.sessions[id].scratch
                 == if SliceCount(|file|, chunkSize) <= calls then file
                    else Received(file, chunkSize, calls, reached)
  {
    created := None;
    var ok;
    slices, progress, ok := SendChunks(uploads.sessions[id], file, chunkSize, calls, reached);
    failed := !ok || !complete.Answered?;
    if ok && !complete.LostRequest? {
      created := uploads.CompleteUpload(repo, owner, id);
      if complete.LostAnswer? {
        created := None;
      }
    }
  }

  /** The session is left on the server until it expires: its id never reached the client, or
      an upload that failed before its completion could not be aborted. */
  predicate LeftBehind(size: nat, threshold: nat, chunkSize: nat, calls: nat,
                       start: Delivery, last: Delivery, abortArrives: bool)
    requires chunkSize > 0
  {
    && threshold < size <= MAX_UPLOAD_SESSION_SIZE
    && (start.LostAnswer?
        || (start.Answered? && !abortArrives && (SliceCount(size, chunkSize) > calls || last.LostRequest?)))
  }

  /** The request that makes the row is carried out. */
  predicate RowRequested(size: nat, threshold: nat, chunkSize: nat, calls: nat, start: Delivery, last: Delivery)
    requires chunkSize > 0
  {
    && !last.LostRequest?
    && (size <= threshold || (size <= MAX_UPLOAD_SESSION_SIZE && start.Answered?
          && SliceCount(size, chunkSize) <= calls))
  }

  /** The client: small files in one request, others in slices. `start` and `last` are the fates
      of the first and the completing request; the first `calls` chunk requests are answered, and
      `reached` bytes of the one after them get through.
      `slices` and `progress` report what was sent and the byte counts shown to the user. The
      upload is as good as one request with the whole file, or as good as none. */
  method UploadFileInChunks(uploads: UploadManager, repo: FileRepo, owner: nat, filename: string, file: Content,
                            threshold: nat, chunkSize: nat, calls: nat, reached: nat,
                            start: Delivery, last: Delivery, abortArrives: bool, id: string)
    returns (created: Option<Row>, slices: seq<Content>, progress: seq<nat>)
    requires Valid(repo.State()) && chunkSize > 0 && id !in uploads.sessions && filename != ""
    modifies uploads, repo
    ensures Valid(repo.State())
    ensures var made := RowRequested(|file|, threshold, chunkSize, calls, start, last);
            && repo.State() == old(if made then AfterSingleShot(repo.State(), owner, filename, file) else repo.State())
            && (if made && last.Answered? then SingleShot(old(repo.State()), owner, filename, file, repo.State(),
                                                          created)
                else created.None?)
            && (threshold < |file| && made ==> Reported(file, chunkSize, slices, progress))
    ensures uploads.sessions - {id} == old(uploads.sessions)
    ensures id in uploads.sessions <==> LeftBehind(|file|, threshold, chunkSize, calls, start, last, abortArrives)
    ensures id in uploads.sessions ==>
              uploads.sessions[id].scratch
              == if start.LostAnswer? then [] else if SliceCount(|file|, chunkSize) <= calls then file
                 else Received(file, chunkSize, calls, reached)
  {
    slices, progress := [], [];
    if |file| <= threshold {
      created := PostWhole(repo, owner, filename, file, last);
      assert uploads.sessions - {id} == uploads.sessions;
      return;
    }
    created := None;
    var started := false;
    if !start.LostRequest? {
      started := uploads.InitiateUpload(owner, filename, |file|, id);
    }
    assert uploads.sessions - {id} == old(uploads.sessions);
    if !started || start.LostAnswer? {
      return;
    }
    var failed;
    created, slices, progress, failed :=
      SendAndComplete(uploads, repo, owner, filename, file, chunkSize, calls, reached, last, id);
    if failed && abortArrives {
      var _ := uploads.AbortUpload(owner, id);
    }
    assert uploads.sessions - {id} == old(uploads.sessions);
  }
}
