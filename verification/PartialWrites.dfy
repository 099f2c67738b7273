/** Chunks that stop part-way: the bytes they leave are not counted, and a completion stores
    whatever the scratch file holds. */
module PartialWrites {
  import opened Basics
  import opened Repo
  import opened Uploads

  /** Whole writes are needed: a chunk that stops part-way leaves its bytes behind uncounted, so
      the acknowledged retry completes a file that is longer than declared. */
  lemma PartialWriteCorrupts(owner: nat, filename: string, a: Byte, b: Byte)
    ensures var s0 := NewSession(owner, filename, 2);
            var s1 := AppendChunk(s0, 0, [a, b], 1).0;
            var s2 := AppendChunk(s1, 0, [a, b], 2).0;
            && AppendChunk(s0, 0, [a, b], 1).1 == WriteFailed && AppendChunk(s1, 0, [a, b], 2).1 == Accepted
            && Completable(s2) && s2.scratch == [a, a, b] && Concat(s2.accepted) == [a, b]
  {
  }

  /** A session of two bytes that have both arrived. */
  function FullSession(filename: string, a: Byte, b: Byte): Session {
    Session(0, filename, 2, 2, 1, [a, b], 2, true, [[a, b]])
  }

  /** The length does not betray it: after a failed completion has rewound the file, a chunk that
      stops part-way overwrites bytes, and the next completion stores them. */
  lemma RewoundWriteCorrupts(filename: string, a: Byte, b: Byte, c: Byte)
    ensures AppendChunk(NewSession(0, filename, 2), 0, [a, b], 2) == (FullSession(filename, a, b), Accepted)
    ensures var x := Server([FullSession(filename, a, b)], map["id" := 0], EMPTY_TABLES, []);
            var s := Take(CompleteStep(x, 0, false, 0), Chunk(0, 1, [c, c], 1)).sessions[0];
            Completable(s) && s.scratch == [c, b] && Concat(s.accepted) == [a, b]
  {
    var full := FullSession(filename, a, b);
    var x := Server([full], map["id" := 0], EMPTY_TABLES, []);
    assert WriteAt([], 0, [a, b]) == [a, b] && [a, b][..2] == [a, b];
    assert CompleteStep(x, 0, false, 0).sessions == [full.(offset := 0)];
    assert [c, c][..1] == [c] && WriteAt([a, b], 0, [c]) == [c, b];
    assert [[a, b]][..0] == [] && Concat([[a, b]]) == [a, b];
    assert AppendChunk(NewSession(0, filename, 2), 0, [a, b], 2).0 == full;
  }

  /** Bytes written at a position of the scratch file. */
  datatype Patch = Patch(offset: nat, bytes: Content)

  function Apply(file: Content, w: Patch): Content {
    if w.offset <= |file| then WriteAt(file, w.offset, w.bytes) else file
  }

  function Patched(file: Content, patches: seq<Patch>): Content {
    if patches == [] then file else Apply(Patched(file, patches[..|patches| - 1]), patches[|patches| - 1])
  }

  /** The byte that the last of the patches to reach a position put there. */
  function LastByte(patches: seq<Patch>, p: nat): Option<Byte> {
    if patches == [] then None
    else
      var w := patches[|patches| - 1];
      if w.offset <= p < w.offset + |w.bytes| then Some(w.bytes[p - w.offset])
      else LastByte(patches[..|patches| - 1], p)
  }

  /** Every byte last put anywhere is the one the file has there. */
  ghost predicate Harmless(file: Content, patches: seq<Patch>) {
    forall p: nat :: LastByte(patches, p).Some? ==> p < |file| && LastByte(patches, p).value == file[p]
  }

  /** No patch leaves a gap. */
  ghost predicate Fits(file: Content, patches: seq<Patch>) {
    patches == []
    || (Fits(file, patches[..|patches| - 1])
        && patches[|patches| - 1].offset <= |Patched(file, patches[..|patches| - 1])|)
  }

  lemma {:induction false} PatchedAt(file: Content, patches: seq<Patch>, p: nat)
    requires Fits(file, patches)
    ensures var out := Patched(file, patches);
            && |file| <= |out| && (p < |out| <==> p < |file| || LastByte(patches, p).Some?)
            && (p < |out| ==> out[p] == if LastByte(patches, p).Some? then LastByte(patches, p).value else file[p])
  {
    if patches != [] {
      PatchedAt(file, patches[..|patches| - 1], p);
    }
  }

  lemma PatchedSameIff(file: Content, patches: seq<Patch>)
    requires Fits(file, patches)
    ensures Patched(file, patches) == file <==> Harmless(file, patches)
  {
    var out := Patched(file, patches);
    if Harmless(file, patches) {
      PatchedAt(file, patches, |file|);
      forall p | 0 <= p < |out|
        ensures p < |file| && out[p] == file[p]
      {
        PatchedAt(file, patches, p);
      }
    } else {
      var p: nat :| LastByte(patches, p).Some? && !(p < |file| && LastByte(patches, p).value == file[p]);
      PatchedAt(file, patches, p);
    }
  }

  /** The step's copy into session i stops part-way. */
  predicate StopsShort(x: Server, step: Step, i: nat)
    requires Enabled(x, step) && i < |x.sessions|
  {
    && step.Chunk? && step.session == i && x.sessions[i].open && step.index == x.sessions[i].nextChunk
    && step.written < |step.bytes|
  }

  /** The bytes that such a copy leaves, uncounted, when the session is not yet full. */
  function EarlyOf(x: Server, step: Step, i: nat): nat
    requires Enabled(x, step) && i < |x.sessions|
  {
    if StopsShort(x, step, i) && x.sessions[i].received < x.sessions[i].declared then step.written else 0
  }

  /** What it writes when the session is full: at the file's end, or wherever a failed
      completion has left its position. */
  function LateOf(x: Server, step: Step, i: nat): seq<Patch>
    requires Enabled(x, step) && i < |x.sessions|
  {
    if StopsShort(x, step, i) && x.sessions[i].received == x.sessions[i].declared then
      [Patch(x.sessions[i].offset, step.bytes[..step.written])]
    else []
  }

  function EarlyBytes(x: Server, steps: seq<Step>, i: nat): nat
    requires IsAnyRun(x, steps) && i < |x.sessions|
    decreases |steps|
  {
    if steps == [] then 0
    else
      StepOnFull(x, steps[0], i);
      EarlyOf(x, steps[0], i) + EarlyBytes(Take(x, steps[0]), steps[1..], i)
  }

  function LatePatches(x: Server, steps: seq<Step>, i: nat): seq<Patch>
    requires IsAnyRun(x, steps) && i < |x.sessions|
    decreases |steps|
  {
    if steps == [] then []
    else
      StepOnFull(x, steps[0], i);
      LateOf(x, steps[0], i) + LatePatches(Take(x, steps[0]), steps[1..], i)
  }

  /** What a session's file holds, given the uncounted bytes so far. */
  ghost predicate Explained(s: Session, early: nat, late: seq<Patch>) {
    && s.offset <= |s.scratch| && s.nextChunk == |s.accepted| && s.received == |Concat(s.accepted)|
    && (s.received < s.declared ==>
          && s.offset == |s.scratch| == s.received + early && late == []
          && (early == 0 ==> s.scratch == Concat(s.accepted)))
    && (s.received == s.declared ==>
          && |s.scratch| >= s.received + early
          && (early == 0 ==> Fits(Concat(s.accepted), late) && s.scratch == Patched(Concat(s.accepted), late)))
  }

  lemma FailedCopyExplained(s: Session, early: nat, late: seq<Patch>, bytes: Content)
    requires Explained(s, early, late)
    ensures var t := s.(scratch := WriteAt(s.scratch, s.offset, bytes), offset := s.offset + |bytes|);
            && (s.received < s.declared ==> Explained(t, early + |bytes|, late))
            && (s.received == s.declared ==> Explained(t, early, late + [Patch(s.offset, bytes)]))
            && (s.received > s.declared ==> Explained(t, early, late))
  {
    assert (late + [Patch(s.offset, bytes)])[..|late|] == late;
  }

  lemma AcceptedExplained(s: Session, early: nat, late: seq<Patch>, bytes: Content)
    requires Explained(s, early, late) && s.open
    ensures Explained(AppendChunk(s, s.nextChunk, bytes, |bytes|).0, early, late)
  {
    ConcatAppend(s.accepted, bytes);
    assert bytes[..|bytes|] == bytes;
    if bytes == [] {
      assert WriteAt(s.scratch, s.offset, bytes) == s.scratch;
      assert Concat(s.accepted) + bytes == Concat(s.accepted);
    } else if s.received < s.declared && early == 0 {
      assert WriteAt(s.scratch, s.offset, bytes) == s.scratch + bytes;
    }
  }

  lemma ChunkExplained(s: Session, early: nat, late: seq<Patch>, bytes: Content, written: nat)
    requires Explained(s, early, late) && s.open && written <= |bytes|
    ensures var t, short := AppendChunk(s, s.nextChunk, bytes, written).0, written < |bytes|;
            Explained(t, early + (if short && s.received < s.declared then written else 0),
                      late + if short && s.received == s.declared then [Patch(s.offset, bytes[..written])] else [])
  {
    assert late + [] == late;
    if written < |bytes| {
      FailedCopyExplained(s, early, late, bytes[..written]);
    } else {
      AcceptedExplained(s, early, late, bytes);
    }
  }

  lemma CompleteExplained(x: Server, j: nat, saved: bool, read: nat, i: nat, early: nat, late: seq<Patch>)
    requires j < |x.sessions| && read <= |x.sessions[j].scratch| && i < |x.sessions|
    requires Explained(x.sessions[i], early, late)
    ensures |CompleteStep(x, j, saved, read).sessions| == |x.sessions|
    ensures Explained(CompleteStep(x, j, saved, read).sessions[i], early, late)
  {
  }

  lemma QuietExplained(x: Server, step: Step, i: nat, early: nat, late: seq<Patch>)
    requires Sized(x) && Enabled(x, step) && i < |x.sessions| && Explained(x.sessions[i], early, late)
    requires !step.Chunk? && !step.Complete?
    ensures i < |Take(x, step).sessions| && Explained(Take(x, step).sessions[i], early, late)
  {
  }

  lemma ChunkStepExplained(x: Server, step: Step, i: nat, early: nat, late: seq<Patch>)
    requires Sized(x) && Enabled(x, step) && i < |x.sessions| && Explained(x.sessions[i], early, late) && step.Chunk?
    ensures |Take(x, step).sessions| == |x.sessions|
    ensures Explained(Take(x, step).sessions[i], early + EarlyOf(x, step, i), late + LateOf(x, step, i))
  {
    var s := x.sessions[i];
    if step.session == i && s.open && step.index == s.nextChunk {
      ChunkExplained(s, early, late, step.bytes, step.written);
    } else {
      assert Take(x, step).sessions[i] == s;
      assert late + [] == late;
    }
  }

  lemma StepExplained(x: Server, step: Step, i: nat, early: nat, late: seq<Patch>)
    requires Sized(x) && Enabled(x, step) && i < |x.sessions| && Explained(x.sessions[i], early, late)
    ensures i < |Take(x, step).sessions|
    ensures Explained(Take(x, step).sessions[i], early + EarlyOf(x, step, i), late + LateOf(x, step, i))
  {
    if step.Chunk? {
      ChunkStepExplained(x, step, i, early, late);
    } else {
      assert late + [] == late;
      if step.Complete? {
        CompleteExplained(x, step.session, step.saved, step.read, i, early, late);
      } else {
        QuietExplained(x, step, i, early, late);
      }
    }
  }

  lemma {:induction false} RunExplained(x: Server, steps: seq<Step>, i: nat, early: nat, late: seq<Patch>)
    requires IsAnyRun(x, steps) && i < |x.sessions| && Explained(x.sessions[i], early, late)
    ensures i < |EndOfAny(x, steps).sessions|
    ensures Explained(EndOfAny(x, steps).sessions[i], early + EarlyBytes(x, steps, i), late + LatePatches(x, steps, i))
    decreases |steps|
  {
    if steps == [] {
      assert late + [] == late;
    } else {
      var y, patch := Take(x, steps[0]), LateOf(x, steps[0], i);
      StepExplained(x, steps[0], i, early, late);
      RunExplained(y, steps[1..], i, early + EarlyOf(x, steps[0], i), late + patch);
      Regroup(late, patch, LatePatches(y, steps[1..], i));
    }
  }

  lemma Regroup(a: seq<Patch>, b: seq<Patch>, c: seq<Patch>)
    ensures (a + b) + c == a + (b + c)
  {
  }

  /** When a full session is sound, exactly, over every run, failed completions that rewind the
      file included: it would store the accepted chunks in order if and only if no copy that
      stopped part-way left bytes before the session was full, and every byte that such copies
      last put anywhere afterwards is the byte the chunks have there. */
  lemma FullSessionSoundIff(x: Server, steps: seq<Step>, i: nat)
    requires IsAnyRun(x, steps) && i < |x.sessions|
    requires var s := x.sessions[i]; s == NewSession(s.owner, s.filename, s.declared)
    ensures i < |EndOfAny(x, steps).sessions|
    ensures var s := EndOfAny(x, steps).sessions[i];
            Completable(s) ==>
              (s.scratch == Concat(s.accepted)
               <==> EarlyBytes(x, steps, i) == 0 && Harmless(Concat(s.accepted), LatePatches(x, steps, i)))
  {
    RunExplained(x, steps, i, 0, []);
    var s, early, late := EndOfAny(x, steps).sessions[i], EarlyBytes(x, steps, i), LatePatches(x, steps, i);
    assert [] + late == late;
    if Completable(s) && early == 0 {
      PatchedSameIff(Concat(s.accepted), late);
    }
  }
}
