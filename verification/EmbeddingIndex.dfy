/** The vector index beside its pointer rows: the embedding jobs that write both, and the pass that
    repairs the index from the rows. Jobs run one at a time, in the order they were queued. */
module EmbeddingIndex {
  import opened Wrappers

  type ProfileId = nat

  /** Names a vector and its pointer alike. */
  datatype Ref = Ref(sourceType: string, sourceId: nat)

  /** What either side stores: the owner and the text that was embedded. */
  datatype Chunk = Chunk(profile: ProfileId, text: string)

  datatype Job = Job(ref: Ref, chunk: Chunk)

  datatype Index = Index(vectors: map<Ref, Chunk>, pointers: map<Ref, Chunk>, queue: seq<Job>)

  predicate Blank(text: string) {
    forall i :: 0 <= i < |text| ==> text[i] in {' ', '\t', '\n', '\r'}
  }

  function Enqueue(ix: Index, job: Job): Index {
    if Blank(job.chunk.text) then ix else ix.(queue := ix.queue + [job])
  }

  /** An existing pointer keeps its owner and takes the new text. */
  function Embed(ix: Index, job: Job): Index {
    var row := if job.ref in ix.pointers then ix.pointers[job.ref].(text := job.chunk.text) else job.chunk;
    ix.(vectors := ix.vectors[job.ref := job.chunk], pointers := ix.pointers[job.ref := row])
  }

  /** A job that cannot embed or reach the store is dropped. */
  function RunNext(ix: Index, works: bool): Index {
    if ix.queue == [] then ix
    else
      var rest := ix.(queue := ix.queue[1..]);
      if works then Embed(rest, ix.queue[0]) else rest
  }

  function Delete(ix: Index, ref: Ref): Index {
    ix.(vectors := ix.vectors - {ref}, pointers := ix.pointers - {ref})
  }

  function Drain(ix: Index): Index
    decreases |ix.queue|
  {
    if ix.queue == [] then ix else Drain(RunNext(ix, true))
  }

  predicate HasJob(jobs: seq<Job>, ref: Ref) {
    exists i :: 0 <= i < |jobs| && jobs[i].ref == ref
  }

  /** One job for every pointer without a vector, with the pointer's own owner and text, in any order. */
  ghost predicate IsRepair(ix: Index, jobs: seq<Job>) {
    && (forall i ::
          0 <= i < |jobs| ==>
          jobs[i].ref in ix.pointers && jobs[i].ref !in ix.vectors && jobs[i].chunk == ix.pointers[jobs[i].ref])
    && (forall ref :: ref in ix.pointers && ref !in ix.vectors ==> HasJob(jobs, ref))
    && (forall i, j :: 0 <= i < j < |jobs| ==> jobs[i].ref != jobs[j].ref)
  }

  // ---- the same, on the stores ----

  class EmbeddingStores {
    var vectors: map<Ref, Chunk>
    var pointers: map<Ref, Chunk>
    var queue: seq<Job>

    function Contents(): Index
      reads this
    {
      Index(vectors, pointers, queue)
    }

    constructor ()
      ensures Contents() == Index(map[], map[], [])
    {
      vectors, pointers, queue := map[], map[], [];
    }

    method EnqueueEmbed(profile: ProfileId, ref: Ref, text: string)
      modifies this`queue
      ensures Contents() == Enqueue(old(Contents()), Job(ref, Chunk(profile, text)))
    {
      if Blank(text) {
        return;
      }
      queue := queue + [Job(ref, Chunk(profile, text))];
    }

    /** Runs the oldest job: the vector first, and the pointer only once that is stored. */
    method EmbedContentJob(works: bool)
      requires queue != []
      modifies this
      ensures Contents() == RunNext(old(Contents()), works)
    {
      var job := queue[0];
      queue := queue[1..];
      if !works {
        return;
      }
      vectors := vectors[job.ref := job.chunk];
      if job.ref !in pointers {
        pointers := pointers[job.ref := job.chunk];
      } else {
        pointers := pointers[job.ref := pointers[job.ref].(text := job.chunk.text)];
      }
    }

    method DeleteEmbed(ref: Ref)
      modifies this`vectors, this`pointers
      ensures ref !in vectors && ref !in pointers
      ensures forall r :: r != ref ==>
                && (r in vectors <==> r in old(vectors)) && (r in vectors ==> vectors[r] == old(vectors)[r])
                && (r in pointers <==> r in old(pointers)) && (r in pointers ==> pointers[r] == old(pointers)[r])
      ensures Contents() == Delete(old(Contents()), ref)
    {
      vectors := vectors - {ref};
      if ref in pointers {
        pointers := pointers - {ref};
      }
    }

    method ReconcileMissingEmbeddings() returns (count: nat, ghost jobs: seq<Job>)
      modifies this`queue
      ensures IsRepair(old(Contents()), jobs) && count == |jobs|
      ensures Contents() == old(Contents()).(queue := old(queue) + jobs)
    {
      jobs := [];
      var missing := set ref | ref in pointers && ref !in vectors;
      count := 0;
      ghost var all := missing;
      while missing != {}
        invariant missing <= all && count == |jobs|
        invariant vectors == old(vectors) && pointers == old(pointers) && queue == old(queue) + jobs
        invariant forall i :: 0 <= i < |jobs| ==> jobs[i].ref in all - missing && jobs[i].chunk == pointers[jobs[i].ref]
        invariant forall ref :: ref in all - missing ==> HasJob(jobs, ref)
        invariant forall i, j :: 0 <= i < j < |jobs| ==> jobs[i].ref != jobs[j].ref
        decreases missing
      {
        var ref :| ref in missing;
        queue := queue + [Job(ref, pointers[ref])];
        ghost var before := jobs;
        jobs := jobs + [Job(ref, pointers[ref])];
        missing := missing - {ref};
        assert jobs[|before|].ref == ref;
        forall r | HasJob(before, r) ensures HasJob(jobs, r) {
          var i :| 0 <= i < |before| && before[i].ref == r;
          assert jobs[i].ref == r;
        }
        count := count + 1;
      }
    }
  }

  // ---- the index never disagrees with the rows ----

  /** Every vector has a pointer with the same text and owner. */
  ghost predicate Agree(ix: Index) {
    forall ref :: ref in ix.vectors ==> ref in ix.pointers && ix.vectors[ref] == ix.pointers[ref]
  }

  /** Agreement, and no source ever changes hands. */
  ghost predicate Sound(ix: Index, owner: Ref -> ProfileId) {
    && Agree(ix)
    && (forall ref :: ref in ix.pointers ==> ix.pointers[ref].profile == owner(ref))
    && (forall i :: 0 <= i < |ix.queue| ==> ix.queue[i].chunk.profile == owner(ix.queue[i].ref))
  }

  /** What can happen: an edit is queued, a job runs, a row is deleted, the store loses vectors, or a worker
      starts up. */
  datatype Act =
    | Edit(ref: Ref, text: string)
    | Work(works: bool)
    | Remove(ref: Ref)
    | Lose(lost: set<Ref>)
    | StartUp(jobs: seq<Job>)

  function Apply(ix: Index, act: Act, owner: Ref -> ProfileId): Index {
    match act
    case Edit(ref, text) => Enqueue(ix, Job(ref, Chunk(owner(ref), text)))
    case Work(works) => RunNext(ix, works)
    case Remove(ref) => Delete(ix, ref)
    case Lose(lost) => ix.(vectors := ix.vectors - lost)
    case StartUp(jobs) => ix.(queue := ix.queue + jobs)
  }

  ghost predicate CanFollow(ix: Index, act: Act) {
    act.StartUp? ==> IsRepair(ix, act.jobs)
  }

  function Replay(acts: seq<Act>, owner: Ref -> ProfileId): Index {
    if acts == [] then Index(map[], map[], [])
    else Apply(Replay(acts[..|acts| - 1], owner), acts[|acts| - 1], owner)
  }

  ghost predicate IsRun(acts: seq<Act>, owner: Ref -> ProfileId) {
    forall i :: 0 <= i < |acts| ==> CanFollow(Replay(acts[..i], owner), acts[i])
  }

  lemma ApplyKeepsSound(ix: Index, act: Act, owner: Ref -> ProfileId)
    requires Sound(ix, owner) && CanFollow(ix, act)
    ensures Sound(Apply(ix, act, owner), owner)
  {
  }

  /** Whatever is lost, deleted, repaired or fails, a vector that is there carries its pointer's text. */
  lemma {:induction false} VectorsCarryPointerText(acts: seq<Act>, owner: Ref -> ProfileId)
    requires IsRun(acts, owner)
    ensures Sound(Replay(acts, owner), owner)
  {
    if acts != [] {
      var init := acts[..|acts| - 1];
      forall i | 0 <= i < |init| ensures CanFollow(Replay(init[..i], owner), init[i]) {
        assert init[..i] == acts[..i];
      }
      VectorsCarryPointerText(init, owner);
      ApplyKeepsSound(Replay(init, owner), acts[|acts| - 1], owner);
    }
  }

  /** What an edit queues, what a job that works writes, and that one that does not is dropped without a trace. */
  lemma EditAndJobOutcome(ix: Index, job: Job, works: bool)
    ensures var after := Enqueue(ix, job);
            && after.vectors == ix.vectors && after.pointers == ix.pointers
            && after.queue == if exists i :: 0 <= i < |job.chunk.text| && job.chunk.text[i] !in {' ', '\t', '\n', '\r'}
                              then ix.queue + [job] else ix.queue
    ensures ix.queue != [] ==>
              var after, next := RunNext(ix, works), ix.queue[0];
              && after.queue == ix.queue[1..]
              && (!works ==> after.vectors == ix.vectors && after.pointers == ix.pointers)
              && (works ==>
                    && after.vectors == ix.vectors[next.ref := next.chunk] && next.ref in after.pointers
                    && after.pointers == ix.pointers[next.ref := after.pointers[next.ref]]
                    && after.pointers[next.ref].text == next.chunk.text
                    && after.pointers[next.ref].profile ==
                         if next.ref in ix.pointers then ix.pointers[next.ref].profile else next.chunk.profile)
  {}

  predicate Written(text: string) {
    exists i :: 0 <= i < |text| && text[i] !in {' ', '\t', '\n', '\r'}
  }

  ghost predicate AllWritten(ix: Index) {
    && (forall ref :: ref in ix.vectors ==> Written(ix.vectors[ref].text))
    && (forall ref :: ref in ix.pointers ==> Written(ix.pointers[ref].text))
    && (forall i :: 0 <= i < |ix.queue| ==> Written(ix.queue[i].chunk.text))
  }

  lemma ApplyKeepsWritten(ix: Index, act: Act, owner: Ref -> ProfileId)
    requires AllWritten(ix) && CanFollow(ix, act)
    ensures AllWritten(Apply(ix, act, owner))
  {
    match act
    case Edit(ref, text) =>
      EditAndJobOutcome(ix, Job(ref, Chunk(owner(ref), text)), true);
      hide Enqueue;
    case Work(works) => hide Written;
    case _ => hide Written;
  }

  /** Over any run no blank text is ever queued, pointed to or in the index. */
  lemma {:induction false} NothingBlankIsIndexed(acts: seq<Act>, owner: Ref -> ProfileId)
    requires IsRun(acts, owner)
    ensures AllWritten(Replay(acts, owner))
  {
    hide AllWritten, Apply;
    if acts != [] {
      var init := acts[..|acts| - 1];
      forall i | 0 <= i < |init| ensures CanFollow(Replay(init[..i], owner), init[i]) {
        assert init[..i] == acts[..i];
      }
      NothingBlankIsIndexed(init, owner);
      ApplyKeepsWritten(Replay(init, owner), acts[|acts| - 1], owner);
    } else {
      assert AllWritten(Index(map[], map[], [])) by { NothingIsBlank(); }
    }
  }

  lemma NothingIsBlank()
    ensures AllWritten(Index(map[], map[], []))
  {}

  // ---- repair ----

  /** What the last queued job for a source asks for. */
  function LastFor(queue: seq<Job>, ref: Ref): Option<Chunk> {
    if queue == [] then None
    else if LastFor(queue[1..], ref).Some? then LastFor(queue[1..], ref)
    else if queue[0].ref == ref then Some(queue[0].chunk)
    else None
  }

  lemma {:induction false} LastForParts(a: seq<Job>, b: seq<Job>, ref: Ref)
    ensures LastFor(a + b, ref) == if LastFor(b, ref).Some? then LastFor(b, ref) else LastFor(a, ref)
  {
    if a == [] {
      assert a + b == b;
    } else {
      LastForParts(a[1..], b, ref);
      assert (a + b)[1..] == a[1..] + b;
    }
  }

  lemma {:induction false} LastForIsQueued(queue: seq<Job>, ref: Ref)
    ensures LastFor(queue, ref).Some? <==> HasJob(queue, ref)
    ensures LastFor(queue, ref).Some? ==> Job(ref, LastFor(queue, ref).value) in queue
  {
    if queue != [] {
      LastForIsQueued(queue[1..], ref);
      assert queue == [queue[0]] + queue[1..];
    }
  }

  /** A source ends with its last job's text on both sides, or untouched if it had none. */
  lemma {:induction false} DrainOutcome(ix: Index, owner: Ref -> ProfileId, ref: Ref)
    requires Sound(ix, owner)
    ensures var after, last := Drain(ix), LastFor(ix.queue, ref);
            if last.Some? then
              ref in after.vectors && ref in after.pointers && after.vectors[ref] == after.pointers[ref] == last.value
            else
              && (ref in after.vectors <==> ref in ix.vectors)
                    && (ref in ix.vectors ==> after.vectors[ref] == ix.vectors[ref])
              && (ref in after.pointers <==> ref in ix.pointers)
                    && (ref in ix.pointers ==> after.pointers[ref] == ix.pointers[ref])
    decreases |ix.queue|
  {
    if ix.queue != [] {
      DrainOutcome(RunNext(ix, true), owner, ref);
    }
  }

  lemma RepairJob(ix: Index, jobs: seq<Job>, ref: Ref)
    requires IsRepair(ix, jobs)
    ensures LastFor(jobs, ref) == if ref in ix.pointers && ref !in ix.vectors then Some(ix.pointers[ref]) else None
  {
    LastForIsQueued(jobs, ref);
  }

  lemma RepairKeepsSound(ix: Index, jobs: seq<Job>, owner: Ref -> ProfileId)
    requires Sound(ix, owner) && IsRepair(ix, jobs)
    ensures Sound(ix.(queue := ix.queue + jobs), owner)
  {
    ApplyKeepsSound(ix, StartUp(jobs), owner);
  }

  /** One pass, with the queue then drained by jobs that work, gives every pointer a vector that agrees with
      it; and no vector that was present is written again except by jobs queued before. */
  lemma ReconcileRepairs(ix: Index, jobs: seq<Job>, owner: Ref -> ProfileId, ref: Ref)
    requires Sound(ix, owner) && IsRepair(ix, jobs) && ref in ix.pointers
    ensures var after := Drain(ix.(queue := ix.queue + jobs));
            ref in after.pointers && ref in after.vectors && after.vectors[ref] == after.pointers[ref]
    ensures ref in ix.vectors ==> !HasJob(jobs, ref)
  {
    RepairKeepsSound(ix, jobs, owner);
    DrainOutcome(ix.(queue := ix.queue + jobs), owner, ref);
    LastForParts(ix.queue, jobs, ref);
    RepairJob(ix, jobs, ref);
  }

  /** On an idle index the repair is complete and changes nothing else: afterwards the vectors are the
      pointers, and the pointers are as they were. */
  lemma IdleRepairRestoresTheIndex(ix: Index, jobs: seq<Job>, owner: Ref -> ProfileId)
    requires Sound(ix, owner) && IsRepair(ix, jobs) && ix.queue == []
    ensures Drain(ix.(queue := jobs)).vectors == ix.pointers
    ensures Drain(ix.(queue := jobs)).pointers == ix.pointers
    ensures forall ref :: ref in ix.vectors ==> ix.vectors[ref] == ix.pointers[ref]
  {
    RepairKeepsSound(ix, jobs, owner);
    assert ix.queue + jobs == jobs;
    var after := Drain(ix.(queue := jobs));
    forall ref
      ensures ref in after.vectors <==> ref in ix.pointers
      ensures ref in ix.pointers ==> ref in after.vectors && after.vectors[ref] == ix.pointers[ref]
      ensures ref in after.pointers <==> ref in ix.pointers
      ensures ref in ix.pointers ==> after.pointers[ref] == ix.pointers[ref]
    {
      DrainOutcome(ix.(queue := jobs), owner, ref);
      RepairJob(ix, jobs, ref);
    }
  }

  /** The text the owner last asked for, given what is queued and stored. */
  function Wanted(ix: Index, ref: Ref): string
    requires ref in ix.pointers
  {
    if LastFor(ix.queue, ref).Some? then LastFor(ix.queue, ref).value.text else ix.pointers[ref].text
  }

  /** With edits still queued the pass can undo one: its own job, for a missing vector, carries the stored
      text and comes after the edit. The edit survives exactly when the vector was there, nothing was queued
      for the source, or it asked for the stored text anyway. */
  lemma QueuedEditSurvivesRepair(ix: Index, jobs: seq<Job>, owner: Ref -> ProfileId, ref: Ref)
    requires Sound(ix, owner) && IsRepair(ix, jobs) && ref in ix.pointers
    ensures var after, last := Drain(ix.(queue := ix.queue + jobs)), LastFor(ix.queue, ref);
            ref in after.pointers && (after.pointers[ref].text == Wanted(ix, ref) <==>
              ref in ix.vectors || last.None? || last.value.text == ix.pointers[ref].text)
  {
    RepairKeepsSound(ix, jobs, owner);
    DrainOutcome(ix.(queue := ix.queue + jobs), owner, ref);
    LastForParts(ix.queue, jobs, ref);
    RepairJob(ix, jobs, ref);
  }

  /** Text A is embedded; B is queued; the vector is lost; a worker starts up, queues A again, and runs both. */
  function UndoneEdit(ref: Ref): seq<Act> {
    [Edit(ref, "A"), Work(true), Edit(ref, "B"), Lose({ref}), StartUp([Job(ref, Chunk(7, "A"))]), Work(true),
          Work(true)]
  }

  /** A is back, and nothing is left in the queue that would change it. */
  lemma RepairUndoesQueuedEdit(ref: Ref)
    ensures var owner := (r: Ref) => 7;
            && IsRun(UndoneEdit(ref), owner)
            && var after := Replay(UndoneEdit(ref), owner);
            && ref in after.pointers && after.pointers[ref].text == "A" && ref in after.vectors
                  && after.vectors[ref].text == "A"
            && after.queue == []
  {
    var owner, acts := (r: Ref) => 7, UndoneEdit(ref);
    var a, b := Chunk(7, "A"), Chunk(7, "B");
    assert !Blank("A") && !Blank("B") by {
      assert "A"[0] == 'A' && "B"[0] == 'B';
    }
    assert [Job(ref, a)][0].ref == ref;
    assert HasJob([Job(ref, a)], ref);
    assert IsRepair(Index(map[], map[ref := a], [Job(ref, b)]), [Job(ref, a)]);
    hide Blank, IsRepair, Replay;
    var steps := [
      Index(map[], map[], []), Index(map[], map[], [Job(ref, a)]), Index(map[ref := a], map[ref := a], []),
      Index(map[ref := a], map[ref := a], [Job(ref, b)]), Index(map[], map[ref := a], [Job(ref, b)]),
      Index(map[], map[ref := a], [Job(ref, b), Job(ref, a)]), Index(map[ref := b], map[ref := b], [Job(ref, a)]),
      Index(map[ref := a], map[ref := a], [])];
    forall i | 0 <= i < 7 ensures Apply(steps[i], acts[i], owner) == steps[i + 1] {
      UndoneStep(ref, i, steps, owner);
    }
    hide Apply;
    ReplaySteps(acts, steps, owner, 7);
    assert acts[..7] == acts;
    forall i | 0 <= i < 7 ensures CanFollow(Replay(acts[..i], owner), acts[i]) {
      ReplaySteps(acts, steps, owner, i);
    }
  }

  lemma UndoneStep(ref: Ref, i: nat, steps: seq<Index>, owner: Ref -> ProfileId)
    requires i < 7 && !Blank("A") && !Blank("B") && forall r :: owner(r) == 7
    requires var a, b := Chunk(7, "A"), Chunk(7, "B");
             steps == [
               Index(map[], map[], []), Index(map[], map[], [Job(ref, a)]), Index(map[ref := a], map[ref := a], []),
               Index(map[ref := a], map[ref := a], [Job(ref, b)]), Index(map[], map[ref := a], [Job(ref, b)]),
               Index(map[], map[ref := a], [Job(ref, b), Job(ref, a)]),
               Index(map[ref := b], map[ref := b], [Job(ref, a)]), Index(map[ref := a], map[ref := a], [])]
    ensures Apply(steps[i], UndoneEdit(ref)[i], owner) == steps[i + 1]
  {
    hide Blank;
    match i
    case 0 | 1 | 2 | 3 | 4 | 5 | 6 =>
  }

  lemma {:induction false} ReplaySteps(acts: seq<Act>, steps: seq<Index>, owner: Ref -> ProfileId, n: nat)
    requires n <= |acts| < |steps| && steps[0] == Index(map[], map[], [])
    requires forall i :: 0 <= i < |acts| ==> Apply(steps[i], acts[i], owner) == steps[i + 1]
    ensures Replay(acts[..n], owner) == steps[n]
  {
    hide Apply;
    if n > 0 {
      ReplaySteps(acts, steps, owner, n - 1);
      assert acts[..n][..n - 1] == acts[..n - 1];
    }
  }

  /** Deleting a source does not withdraw its queued jobs: it stays deleted exactly when it has none. */
  lemma DeletedStaysDeleted(ix: Index, owner: Ref -> ProfileId, ref: Ref)
    requires Sound(ix, owner)
    ensures ref !in Drain(Delete(ix, ref)).vectors <==> !HasJob(ix.queue, ref)
    ensures ref !in Drain(Delete(ix, ref)).pointers <==> !HasJob(ix.queue, ref)
  {
    ApplyKeepsSound(ix, Remove(ref), owner);
    DrainOutcome(Delete(ix, ref), owner, ref);
    LastForIsQueued(ix.queue, ref);
  }
}
