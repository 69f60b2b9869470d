/** A copy attempt that nothing fails and nobody disturbs, in any directory where its two names
    are free, with the source read in any number of chunks of any sizes. */
module QuietCopy {
  import opened CopyProtocol
  import opened Text

  /** Where the attempt starts, and the numbers its inodes and its carrier are given. */
  datatype Setting = Setting(start: State, attempt: nat, marker: nat, file: nat, carrier: nat)

  predicate Vacant(q: Setting) {
    var d := q.start.disk;
    && q.attempt !in q.start.attempts
    && Public(Intent) !in d.links && Public(Destination) !in d.links
    && NumberFree(d.links, d.open, q.marker) && NumberFree(d.links, d.open, q.file) && q.marker != q.file
    && q.carrier !in d.carriers && Artifact(q.carrier) !in d.links
  }

  function Token(q: Setting): Inode { Inode(q.marker, MarkerOf(q.attempt)) }

  function File(q: Setting): Inode { Inode(q.file, CopyOf(q.attempt)) }

  function Flatten(chunks: seq<seq<bv8>>): seq<bv8> {
    if chunks == [] then [] else chunks[0] + Flatten(chunks[1..])
  }

  // ----- The script -----

  function Copies(a: nat, chunks: seq<seq<bv8>>, stored: seq<seq<bv8>>): seq<Action>
    requires |chunks| == |stored|
  {
    if chunks == [] then [] else [CopyChunk(a, chunks[0], stored[0], true)] + Copies(a, chunks[1..], stored[1..])
  }

  function OpenActions(q: Setting): seq<Action> { [Begin(q.attempt), CreateMarker(q.attempt, q.marker, true)] }

  function MarkActions(q: Setting): seq<Action> { [IdentifyMarker(q.attempt, true), SyncMarker(q.attempt, true)] }

  function CreateActions(q: Setting, size: nat): seq<Action> {
    [CreateFile(q.attempt, q.file, size, true), StatFile(q.attempt, true)]
  }

  function SyncActions(q: Setting): seq<Action> { [Flush(q.attempt, true, true), Compare(q.attempt, true)] }

  function VerifyActions(q: Setting): seq<Action> { [OpenForHash(q.attempt, true), CloseHash(q.attempt, true)] }

  function ConcludeActions(q: Setting): seq<Action> {
    [Conclude(q.attempt, false, true), Prepare(q.attempt, q.carrier, true)]
  }

  function RetireActions(q: Setting): seq<Action> { [Capture(q.attempt, true), Decide(q.attempt, true, true)] }

  function SealActions(q: Setting): seq<Action> { [Clean(q.attempt, true), Seal(q.attempt, true)] }

  function Script(q: Setting, chunks: seq<seq<bv8>>, stored: seq<seq<bv8>>): seq<Action>
    requires |chunks| == |stored|
  {
    OpenActions(q) + (MarkActions(q) + (CreateActions(q, |Flatten(chunks)|) + Copies(q.attempt, chunks, stored)))
    + (SyncActions(q) + VerifyActions(q) + (ConcludeActions(q) + (RetireActions(q) + SealActions(q))))
  }

  lemma RunTwo(s: State, x: Action, y: Action)
    ensures Run(s, [x, y]) == Step(Step(s, x), y)
  {
    hide Step;
    assert [x, y][1..] == [y];
    assert Run(Step(s, x), [y]) == Run(Step(Step(s, x), y), []);
  }

  lemma {:induction false} RunTwice(s: State, first: seq<Action>, second: seq<Action>)
    ensures Run(s, first + second) == Run(Run(s, first), second)
    decreases |first|
  {
    hide Step;
    if first == [] {
      assert first + second == second;
    } else {
      assert (first + second)[1..] == first[1..] + second;
      RunTwice(Step(s, first[0]), first[1..], second);
    }
  }

  // ----- The states on the way -----

  function With(q: Setting, d: Disk, t: Attempt): State { State(d, q.start.attempts[q.attempt := t]) }

  function MarkerDisk(q: Setting): Disk {
    var d := q.start.disk;
    d.(links := d.links[Public(Intent) := Token(q)], open := d.open + {Token(q)})
  }

  function WithMarker(q: Setting, stage: Stage): State {
    With(q, MarkerDisk(q), Attempt(stage, true, Some(Token(q)), None, 0, []))
  }

  function FileDisk(q: Setting, bytes: seq<bv8>): Disk {
    var d := MarkerDisk(q);
    d.(links := d.links[Public(Destination) := File(q)], open := d.open + {File(q)},
      content := d.content[File(q) := bytes])
  }

  function Filling(q: Setting, stage: Stage, size: nat, read: seq<bv8>, bytes: seq<bv8>): State {
    With(q, FileDisk(q, bytes), Attempt(stage, true, Some(Token(q)), Some(File(q)), size, read))
  }

  function SyncedDisk(q: Setting, bytes: seq<bv8>): Disk {
    var d := FileDisk(q, bytes);
    d.(durable := d.durable + {File(q)})
  }

  function Synced(q: Setting, stage: Stage, read: seq<bv8>, bytes: seq<bv8>): State {
    With(q, SyncedDisk(q, bytes), Attempt(stage, true, Some(Token(q)), Some(File(q)), |read|, read))
  }

  function CarrierDisk(q: Setting, bytes: seq<bv8>): Disk {
    var d := SyncedDisk(q, bytes);
    d.(carriers := d.carriers[q.carrier := Carrier(q.attempt, Intent, true)])
  }

  function Enclosed(q: Setting, read: seq<bv8>, bytes: seq<bv8>): State {
    With(q, CarrierDisk(q, bytes),
         Attempt(Retiring(Prepared(q.carrier)), true, Some(Token(q)), Some(File(q)), |read|, read))
  }

  function CaptureDisk(q: Setting, bytes: seq<bv8>): Disk {
    var d := CarrierDisk(q, bytes);
    d.(links := q.start.disk.links[Public(Destination) := File(q)][Artifact(q.carrier) := Token(q)])
  }

  function Taken(q: Setting, read: seq<bv8>, bytes: seq<bv8>): State {
    With(q, CaptureDisk(q, bytes),
         Attempt(Retiring(Captured(q.carrier)), true, Some(Token(q)), Some(File(q)), |read|, read))
  }

  function RetiredDisk(q: Setting, bytes: seq<bv8>): Disk {
    var d := CarrierDisk(q, bytes);
    d.(links := q.start.disk.links[Public(Destination) := File(q)], open := d.open - {Token(q)})
  }

  function Retired(q: Setting, read: seq<bv8>, bytes: seq<bv8>): State {
    With(q, RetiredDisk(q, bytes),
         Attempt(Retiring(Cleaning(q.carrier, true)), true, Some(Token(q)), Some(File(q)), |read|, read))
  }

  function Cleaned(q: Setting, read: seq<bv8>, bytes: seq<bv8>): State {
    var d := RetiredDisk(q, bytes);
    With(q, d.(carriers := d.carriers[q.carrier := Carrier(q.attempt, Intent, false)]),
         Attempt(Sealing, true, Some(Token(q)), Some(File(q)), |read|, read))
  }

  // ----- The steps -----

  lemma OpenSteps(q: Setting)
    requires Vacant(q)
    ensures Step(Step(q.start, OpenActions(q)[0]), OpenActions(q)[1]) == WithMarker(q, Marked)
  {
    hide ActCopy;
    hide ActRemoval;
    var next := Step(Step(q.start, OpenActions(q)[0]), OpenActions(q)[1]);
    assert next.attempts == WithMarker(q, Marked).attempts;
  }

  lemma IdentifySteps(q: Setting)
    requires Vacant(q)
    ensures Step(WithMarker(q, Marked), MarkActions(q)[0]) == WithMarker(q, Identified)
  {
    hide ActCopy;
    hide ActRemoval;
    var next := Step(WithMarker(q, Marked), MarkActions(q)[0]);
    assert next.attempts == WithMarker(q, Identified).attempts;
  }

  lemma SyncMarkerSteps(q: Setting)
    requires Vacant(q)
    ensures Step(WithMarker(q, Identified), MarkActions(q)[1]) == WithMarker(q, Copying)
  {
    hide ActCopy;
    hide ActRemoval;
    var next := Step(WithMarker(q, Identified), MarkActions(q)[1]);
    assert next.attempts == WithMarker(q, Copying).attempts;
  }

  lemma CreateSteps(q: Setting, size: nat)
    requires Vacant(q)
    ensures Step(WithMarker(q, Copying), CreateActions(q, size)[0]) == Filling(q, Created, size, [], [])
  {
    hide ActIntent;
    hide ActRemoval;
    var next := Step(WithMarker(q, Copying), CreateActions(q, size)[0]);
    assert NumberFree(MarkerDisk(q).links, MarkerDisk(q).open, q.file);
    assert next.attempts == Filling(q, Created, size, [], []).attempts;
  }

  lemma StatSteps(q: Setting, size: nat)
    requires Vacant(q)
    ensures Step(Filling(q, Created, size, [], []), CreateActions(q, size)[1]) == Filling(q, Writing, size, [], [])
  {
    hide ActCopy;
    hide ActRemoval;
    var next := Step(Filling(q, Created, size, [], []), CreateActions(q, size)[1]);
    assert next.attempts == Filling(q, Writing, size, [], []).attempts;
  }

  lemma ChunkSteps(q: Setting, size: nat, read: seq<bv8>, bytes: seq<bv8>, chunk: seq<bv8>, stored: seq<bv8>)
    requires |read| + |chunk| <= size
    ensures Step(Filling(q, Writing, size, read, bytes), CopyChunk(q.attempt, chunk, stored, true))
            == Filling(q, Writing, size, read + chunk, bytes + stored)
  {
    hide ActIntent;
    hide ActRemoval;
    var s1 := Step(Filling(q, Writing, size, read, bytes), CopyChunk(q.attempt, chunk, stored, true));
    assert s1.disk.content == FileDisk(q, bytes + stored).content;
    assert s1.attempts == Filling(q, Writing, size, read + chunk, bytes + stored).attempts;
  }

  lemma {:induction false} CopiesRun(q: Setting, size: nat, read: seq<bv8>, bytes: seq<bv8>, chunks: seq<seq<bv8>>,
          stored: seq<seq<bv8>>)
    requires |chunks| == |stored| && |read| + |Flatten(chunks)| <= size
    ensures Run(Filling(q, Writing, size, read, bytes), Copies(q.attempt, chunks, stored))
            == Filling(q, Writing, size, read + Flatten(chunks), bytes + Flatten(stored))
    decreases |chunks|
  {
    hide Step;
    hide Filling;
    if chunks == [] {
      assert read + [] == read && bytes + [] == bytes;
    } else {
      ChunkSteps(q, size, read, bytes, chunks[0], stored[0]);
      CopiesRun(q, size, read + chunks[0], bytes + stored[0], chunks[1..], stored[1..]);
      assert Copies(q.attempt, chunks, stored)[1..] == Copies(q.attempt, chunks[1..], stored[1..]);
      assert read + chunks[0] + Flatten(chunks[1..]) == read + Flatten(chunks);
      assert bytes + stored[0] + Flatten(stored[1..]) == bytes + Flatten(stored);
    }
  }

  function AfterCompare(read: seq<bv8>): Stage { if |read| <= BOUND then Matched else Checked }

  lemma FlushSteps(q: Setting, read: seq<bv8>, bytes: seq<bv8>)
    requires Vacant(q)
    ensures Step(Filling(q, Writing, |read|, read, bytes), SyncActions(q)[0]) == Synced(q, Flushed, read, bytes)
  {
    hide NumberFree;
    hide ActIntent;
    hide ActRemoval;
    var next := Step(Filling(q, Writing, |read|, read, bytes), SyncActions(q)[0]);
    assert next.attempts == Synced(q, Flushed, read, bytes).attempts;
  }

  lemma CompareSteps(q: Setting, read: seq<bv8>, bytes: seq<bv8>)
    requires Vacant(q)
    ensures Step(Synced(q, Flushed, read, bytes), SyncActions(q)[1]) == Synced(q, AfterCompare(read), read, bytes)
  {
    hide NumberFree;
    hide ActIntent;
    hide ActRemoval;
    var next := Step(Synced(q, Flushed, read, bytes), SyncActions(q)[1]);
    assert next.attempts == Synced(q, AfterCompare(read), read, bytes).attempts;
  }

  /** Above the bound the copy is not read back, and its bytes are whatever was stored. */
  predicate Arrived(read: seq<bv8>, bytes: seq<bv8>) { bytes == read || |read| > 4_294_967_296 }

  lemma HashSteps(q: Setting, read: seq<bv8>)
    requires Vacant(q) && |read| <= BOUND
    ensures Step(Synced(q, Matched, read, read), VerifyActions(q)[0]) == Synced(q, Hashing(File(q)), read, read)
  {
    hide NumberFree;
    hide ActIntent;
    hide ActRemoval;
    var next := Step(Synced(q, Matched, read, read), VerifyActions(q)[0]);
    assert next.attempts == Synced(q, Hashing(File(q)), read, read).attempts;
  }

  lemma RereadSteps(q: Setting, read: seq<bv8>)
    requires Vacant(q) && |read| <= BOUND
    ensures Step(Synced(q, Hashing(File(q)), read, read), VerifyActions(q)[1]) == Synced(q, Checked, read, read)
  {
    hide NumberFree;
    hide ActIntent;
    hide ActRemoval;
    var next := Step(Synced(q, Hashing(File(q)), read, read), VerifyActions(q)[1]);
    assert next.attempts == Synced(q, Checked, read, read).attempts;
  }

  /** Bytes that differ do not pass: the copy is to be rolled back. */
  lemma RefuseSteps(q: Setting, read: seq<bv8>, bytes: seq<bv8>)
    requires Vacant(q) && !Arrived(read, bytes)
    ensures
      var next := Step(Synced(q, Matched, read, bytes), VerifyActions(q)[0]);
      Step(next, VerifyActions(q)[1]) == Synced(q, Rollback(Preparing), read, bytes)
  {
    hide ActIntent;
    hide NumberFree;
    var next := Step(Synced(q, Matched, read, bytes), VerifyActions(q)[0]);
    if |bytes| <= BOUND {
      assert next.attempts == Synced(q, Hashing(File(q)), read, bytes).attempts;
    } else {
      assert next.attempts == Synced(q, Rollback(Preparing), read, bytes).attempts;
    }
    assert Step(next, VerifyActions(q)[1]).attempts == Synced(q, Rollback(Preparing), read, bytes).attempts;
  }

  lemma SkipSteps(q: Setting, read: seq<bv8>, bytes: seq<bv8>)
    requires Vacant(q)
    ensures Step(Synced(q, Checked, read, bytes), VerifyActions(q)[0]) == Synced(q, Checked, read, bytes)
    ensures Step(Synced(q, Checked, read, bytes), VerifyActions(q)[1]) == Synced(q, Checked, read, bytes)
  {
    hide NumberFree;
    hide ActIntent;
    hide ActRemoval;
  }

  lemma ConcludeSteps(q: Setting, read: seq<bv8>, bytes: seq<bv8>)
    requires Vacant(q)
    ensures Step(Synced(q, Checked, read, bytes), ConcludeActions(q)[0]) == Synced(q, Retiring(Preparing), read, bytes)
  {
    hide NumberFree;
    hide ActCopy;
    hide ActRemoval;
    var next := Step(Synced(q, Checked, read, bytes), ConcludeActions(q)[0]);
    assert next.attempts == Synced(q, Retiring(Preparing), read, bytes).attempts;
  }

  lemma PrepareSteps(q: Setting, read: seq<bv8>, bytes: seq<bv8>)
    requires Vacant(q)
    ensures Step(Synced(q, Retiring(Preparing), read, bytes), ConcludeActions(q)[1]) == Enclosed(q, read, bytes)
  {
    hide NumberFree;
    hide ActCopy;
    hide ActIntent;
    var next := Step(Synced(q, Retiring(Preparing), read, bytes), ConcludeActions(q)[1]);
    assert next.attempts == Enclosed(q, read, bytes).attempts;
  }

  lemma TakenLinks(links: map<Place, Inode>, token: Inode, file: Inode, c: nat)
    requires Public(Intent) !in links && Public(Destination) !in links && Artifact(c) !in links
    ensures Move(links[Public(Intent) := token][Public(Destination) := file], Public(Intent), Artifact(c))
            == links[Public(Destination) := file][Artifact(c) := token]
    ensures links[Public(Destination) := file][Artifact(c) := token] - {Artifact(c)}
      == links[Public(Destination) := file]
  {
  }

  lemma CaptureSteps(q: Setting, read: seq<bv8>, bytes: seq<bv8>)
    requires Vacant(q)
    ensures Step(Enclosed(q, read, bytes), RetireActions(q)[0]) == Taken(q, read, bytes)
  {
    hide DoPrepare;
    hide DoDecide;
    hide DoRestore;
    hide DoClean;
    hide Move;
    hide NumberFree;
    hide ActCopy;
    hide ActIntent;
    var next := Step(Enclosed(q, read, bytes), RetireActions(q)[0]);
    TakenLinks(q.start.disk.links, Token(q), File(q), q.carrier);
    assert next.attempts == Taken(q, read, bytes).attempts;
  }

  lemma DecideSteps(q: Setting, read: seq<bv8>, bytes: seq<bv8>)
    requires Vacant(q)
    ensures Step(Taken(q, read, bytes), RetireActions(q)[1]) == Retired(q, read, bytes)
  {
    hide DoPrepare;
    hide DoCapture;
    hide DoRestore;
    hide DoClean;
    hide Move;
    hide NumberFree;
    hide ActCopy;
    hide ActIntent;
    var next := Step(Taken(q, read, bytes), RetireActions(q)[1]);
    TakenLinks(q.start.disk.links, Token(q), File(q), q.carrier);
    assert next.attempts == Retired(q, read, bytes).attempts;
  }

  lemma CleanSteps(q: Setting, read: seq<bv8>, bytes: seq<bv8>)
    requires Vacant(q)
    ensures Step(Retired(q, read, bytes), SealActions(q)[0]) == Cleaned(q, read, bytes)
  {
    hide NumberFree;
    hide ActCopy;
    hide ActIntent;
    var next := Step(Retired(q, read, bytes), SealActions(q)[0]);
    assert next.attempts == Cleaned(q, read, bytes).attempts;
  }

  predicate Finishes(q: Setting, end: State, bytes: seq<bv8>) {
    && q.attempt in end.attempts && end.attempts[q.attempt].stage == Finished(true)
    && end.attempts - {q.attempt} == q.start.attempts
    && end.disk.links == q.start.disk.links[Public(Destination) := File(q)]
    && end.disk.open == q.start.disk.open && Content(end.disk, File(q)) == bytes
  }

  lemma SealSteps(q: Setting, read: seq<bv8>, bytes: seq<bv8>)
    requires Vacant(q)
    ensures Finishes(q, Step(Cleaned(q, read, bytes), SealActions(q)[1]), bytes)
  {
    hide ActCopy;
    hide ActRemoval;
    var end := Step(Cleaned(q, read, bytes), SealActions(q)[1]);
    assert end.disk.open == q.start.disk.open;
    assert end.attempts - {q.attempt} == q.start.attempts;
  }

  lemma Copied(q: Setting, chunks: seq<seq<bv8>>, stored: seq<seq<bv8>>)
    requires Vacant(q) && |chunks| == |stored|
    ensures
      var read := Flatten(chunks);
      Run(q.start, OpenActions(q) + (MarkActions(q) + (CreateActions(q, |read|) + Copies(q.attempt, chunks, stored))))
      == Filling(q, Writing, |read|, read, Flatten(stored))
  {
    hide Step;
    hide Filling;
    hide WithMarker;
    var size := |Flatten(chunks)|;
    var made := CreateActions(q, size) + Copies(q.attempt, chunks, stored);
    RunTwice(q.start, OpenActions(q), MarkActions(q) + made);
    RunTwo(q.start, OpenActions(q)[0], OpenActions(q)[1]);
    OpenSteps(q);
    RunTwice(WithMarker(q, Marked), MarkActions(q), made);
    RunTwo(WithMarker(q, Marked), MarkActions(q)[0], MarkActions(q)[1]);
    IdentifySteps(q);
    SyncMarkerSteps(q);
    RunTwice(WithMarker(q, Copying), CreateActions(q, size), Copies(q.attempt, chunks, stored));
    RunTwo(WithMarker(q, Copying), CreateActions(q, size)[0], CreateActions(q, size)[1]);
    CreateSteps(q, size);
    StatSteps(q, size);
    CopiesRun(q, size, [], [], chunks, stored);
    assert [] + Flatten(chunks) == Flatten(chunks) && [] + Flatten(stored) == Flatten(stored);
  }

  /** Verification passes exactly when the bytes arrived or are too many to be read back. */
  lemma Verified(q: Setting, read: seq<bv8>, bytes: seq<bv8>)
    requires Vacant(q)
    ensures Run(Filling(q, Writing, |read|, read, bytes), SyncActions(q) + VerifyActions(q)) ==
            Synced(q, if Arrived(read, bytes) then Checked else Rollback(Preparing), read, bytes)
  {
    hide Step;
    hide Filling;
    hide Synced;
    var s, middle := Filling(q, Writing, |read|, read, bytes), Synced(q, AfterCompare(read), read, bytes);
    RunTwice(s, SyncActions(q), VerifyActions(q));
    RunTwo(s, SyncActions(q)[0], SyncActions(q)[1]);
    FlushSteps(q, read, bytes);
    CompareSteps(q, read, bytes);
    RunTwo(middle, VerifyActions(q)[0], VerifyActions(q)[1]);
    if |read| > BOUND {
      SkipSteps(q, read, bytes);
    } else if bytes == read {
      HashSteps(q, read);
      RereadSteps(q, read);
    } else {
      RefuseSteps(q, read, bytes);
    }
  }

  lemma Concluded(q: Setting, read: seq<bv8>, bytes: seq<bv8>)
    requires Vacant(q)
    ensures Finishes(q, Run(Synced(q, Checked, read, bytes),
      ConcludeActions(q) + (RetireActions(q) + SealActions(q))), bytes)
  {
    hide Step;
    hide Synced;
    hide Enclosed;
    hide Taken;
    hide Retired;
    hide Cleaned;
    hide Finishes;
    var s := Synced(q, Checked, read, bytes);
    RunTwice(s, ConcludeActions(q), RetireActions(q) + SealActions(q));
    RunTwo(s, ConcludeActions(q)[0], ConcludeActions(q)[1]);
    ConcludeSteps(q, read, bytes);
    PrepareSteps(q, read, bytes);
    RunTwice(Enclosed(q, read, bytes), RetireActions(q), SealActions(q));
    RunTwo(Enclosed(q, read, bytes), RetireActions(q)[0], RetireActions(q)[1]);
    CaptureSteps(q, read, bytes);
    DecideSteps(q, read, bytes);
    RunTwo(Retired(q, read, bytes), SealActions(q)[0], SealActions(q)[1]);
    CleanSteps(q, read, bytes);
    SealSteps(q, read, bytes);
  }

  /** The attempt ends with exactly its file added to the directory, everything closed and no
      marker left, whenever the bytes arrived, but also, above the bound, when they did not. */
  lemma Completes(q: Setting, chunks: seq<seq<bv8>>, stored: seq<seq<bv8>>)
    requires Vacant(q) && |chunks| == |stored| && Arrived(Flatten(chunks), Flatten(stored))
    ensures Finishes(q, Run(q.start, Script(q, chunks, stored)), Flatten(stored))
  {
    hide Step;
    hide Filling;
    hide Synced;
    hide Finishes;
    var read, bytes := Flatten(chunks), Flatten(stored);
    var first := OpenActions(q) + (MarkActions(q) + (CreateActions(q, |read|) + Copies(q.attempt, chunks, stored)));
    var second, third := SyncActions(q) + VerifyActions(q), ConcludeActions(q) + (RetireActions(q) + SealActions(q));
    Copied(q, chunks, stored);
    Verified(q, read, bytes);
    Concluded(q, read, bytes);
    RunTwice(q.start, first, second + third);
    RunTwice(Filling(q, Writing, |read|, read, bytes), second, third);
    assert Script(q, chunks, stored) == first + (second + third);
  }
}
