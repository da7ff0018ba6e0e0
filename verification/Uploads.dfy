/** Publishing uploads under names of their own, one after another and many at once. */
module Uploads {
  import opened Wrappers
  import Utf8
  import opened UploadNames

  const ATTEMPTS: nat := 10000
  const MAX_SIZE: nat := 0xFFFF_FFFF_FFFF_FFFF

  /** Anything that can occupy a name: a file with its bytes, or a directory, link and so on. */
  datatype Entry = File(content: text) | Other(kind: nat)

  type Entries = map<text, Entry>

  datatype Failure = StreamFailed | IoFailed | InvalidFileName | AlreadyExists

  /** The requested name, `None` if the path ends in none, and the pieces of the body as they arrive. */
  datatype Upload = Upload(name: Option<text>, chunks: seq<Option<text>>) {
    predicate Named() { name.Some? && Utf8.Valid(name.value) }

    /** The name tried at `index`. */
    function Try(index: nat): Option<text> { if Named() then Candidate(name.value, index) else None }
  }

  /** The bytes of the first `n` pieces. */
  function Received(chunks: seq<Option<text>>, n: nat): text
    requires n <= |chunks|
    decreases n
  {
    if n == 0 then []
    else Received(chunks, n - 1) + (if chunks[n - 1].Some? then chunks[n - 1].value else [])
  }

  function Saturated(n: nat): nat { if n > MAX_SIZE then MAX_SIZE else n }

  predicate Complete(upload: Upload, content: text) {
    && (forall i :: 0 <= i < |upload.chunks| ==> upload.chunks[i].Some?)
    && content == Received(upload.chunks, |upload.chunks|)
  }

  // ----- One upload

  method NameAt(name: text, index: nat) returns (r: Option<text>)
    requires Utf8.Valid(name)
    ensures r == Candidate(name, index)
  {
    if index == 0 { return Some(name); }
    var suffix := Suffix(name, index);
    if |suffix| > NAME_BYTES { return None; }
    StemIsText(name);
    var end := Utf8.StepBack(Stem(name), NAME_BYTES - |suffix|);
    r := Some(Stem(name)[..end] + suffix);
  }

  method Receive(chunks: seq<Option<text>>) returns (r: Result<(text, nat), Failure>)
    ensures r.Ok? <==> forall i :: 0 <= i < |chunks| ==> chunks[i].Some?
    ensures r.Ok? ==> r.value.0 == Received(chunks, |chunks|) && r.value.1 == Saturated(|r.value.0|)
    ensures r.Err? ==> r.error == StreamFailed
  {
    var temp, size := [], 0;
    var i := 0;
    while i < |chunks|
      invariant 0 <= i <= |chunks|
      invariant forall j :: 0 <= j < i ==> chunks[j].Some?
      invariant temp == Received(chunks, i) && size == Saturated(|temp|)
    {
      if chunks[i].None? { return Err(StreamFailed); }
      temp := temp + chunks[i].value;
      size := Saturated(size + |chunks[i].value|);
      i := i + 1;
    }
    r := Ok((temp, size));
  }

  /** The names before `n` are taken. */
  ghost predicate Taken(entries: Entries, upload: Upload, n: nat) {
    forall i :: 0 <= i < n ==> upload.Try(i).Some? && upload.Try(i).value in entries
  }

  class Folder {
    var entries: Entries

    /** A hard link is made only where no entry is; `refused` is any other error. */
    method HardLink(content: text, destination: text, refused: bool) returns (r: Result<bool, Failure>)
      modifies this
      ensures r.Err? <==> refused
      ensures r.Ok? ==> r.value == (destination !in old(entries))
      ensures entries == if r == Ok(true) then old(entries)[destination := File(content)] else old(entries)
    {
      if refused { return Err(IoFailed); }
      if destination in entries { return Ok(false); }
      entries := entries[destination := File(content)];
      r := Ok(true);
    }

    /** `refusedAt` is the attempt at which linking fails for another reason, if any. */
    method PublishUnique(content: text, upload: Upload, refusedAt: Option<nat>) returns (r: Result<text, Failure>)
      modifies this
      ensures r.Ok? ==>
        && r.value !in old(entries) && entries == old(entries)[r.value := File(content)]
        && exists i :: 0 <= i < ATTEMPTS && upload.Try(i) == Some(r.value) && Taken(old(entries), upload, i)
      ensures r.Err? ==> entries == old(entries)
      ensures r == Err(AlreadyExists) ==> Taken(old(entries), upload, ATTEMPTS)
      ensures r != Err(StreamFailed)
      ensures r == Err(IoFailed) ==>
        refusedAt.Some? && refusedAt.value < ATTEMPTS && Taken(old(entries), upload, refusedAt.value)
      ensures r == Err(InvalidFileName) ==>
        exists i :: 0 <= i < ATTEMPTS && upload.Try(i).None? && Taken(old(entries), upload, i)
    {
      if upload.name.None? || !Utf8.Valid(upload.name.value) {
        assert upload.Try(0).None?;
        return Err(InvalidFileName);
      }
      var index := 0;
      while index < ATTEMPTS
        invariant 0 <= index <= ATTEMPTS && entries == old(entries)
        invariant Taken(entries, upload, index)
      {
        var destination := NameAt(upload.name.value, index);
        if destination.None? {
          assert upload.Try(index).None?;
          return Err(InvalidFileName);
        }
        var linked := HardLink(content, destination.value, refusedAt == Some(index));
        if linked.Err? { return Err(IoFailed); }
        if linked.value {
          assert upload.Try(index) == Some(destination.value);
          return Ok(destination.value);
        }
        index := index + 1;
      }
      r := Err(AlreadyExists);
    }
  }

  // ----- Many uploads, interleaved

  datatype Phase =
    | Receiving(next: nat)
    | Linking(index: nat)
    | Published(destination: text)
    | Failed(error: Failure)

  datatype Job = Job(upload: Upload, temp: text, phase: Phase)

  datatype State = State(entries: Entries, jobs: seq<Job>)

  /** `Appears` is another program's new entry; the flags are failures of the file system. */
  datatype Event =
    | Start(upload: Upload)
    | Continue(job: nat, refused: bool)
    | Appears(name: text, entry: Entry)

  function ReceiveStep(j: Job, refused: bool): Job
    requires j.phase.Receiving?
  {
    var next := j.phase.next;
    if refused then j.(phase := Failed(IoFailed))
    else if next >= |j.upload.chunks| then j.(phase := Linking(0))
    else
      match j.upload.chunks[next]
      case None => j.(phase := Failed(StreamFailed))
      case Some(bytes) => j.(temp := j.temp + bytes, phase := Receiving(next + 1))
  }

  function LinkStep(entries: Entries, j: Job, refused: bool): (Entries, Job)
    requires j.phase.Linking?
  {
    var index := j.phase.index;
    if !j.upload.Named() then (entries, j.(phase := Failed(InvalidFileName)))
    else if index >= ATTEMPTS then (entries, j.(phase := Failed(AlreadyExists)))
    else
      match j.upload.Try(index)
      case None => (entries, j.(phase := Failed(InvalidFileName)))
      case Some(destination) =>
        if refused then (entries, j.(phase := Failed(IoFailed)))
        else if destination in entries then (entries, j.(phase := Linking(index + 1)))
        else (entries[destination := File(j.temp)], j.(phase := Published(destination)))
  }

  function Apply(s: State, e: Event): State {
    match e
    case Start(upload) => s.(jobs := s.jobs + [Job(upload, [], Receiving(0))])
    case Continue(k, refused) =>
      if k >= |s.jobs| then s
      else
        var j := s.jobs[k];
        if j.phase.Receiving? then s.(jobs := s.jobs[k := ReceiveStep(j, refused)])
        else if j.phase.Linking? then
          var (entries, after) := LinkStep(s.entries, j, refused);
          State(entries, s.jobs[k := after])
        else s
    case Appears(name, entry) => if name in s.entries then s else s.(entries := s.entries[name := entry])
  }

  function Run(s: State, events: seq<Event>): State
    decreases |events|
  {
    if events == [] then s else Run(Apply(s, events[0]), events[1..])
  }

  /** Every entry is still there, with what it held. */
  ghost predicate Kept(before: Entries, after: Entries) {
    forall name :: name in before ==> name in after && after[name] == before[name]
  }

  ghost predicate JobInv(start: Entries, entries: Entries, j: Job) {
    match j.phase
    case Receiving(next) =>
      && next <= |j.upload.chunks| && j.temp == Received(j.upload.chunks, next)
      && forall i :: 0 <= i < next ==> j.upload.chunks[i].Some?
    case Linking(index) => index <= ATTEMPTS && Complete(j.upload, j.temp) && Taken(entries, j.upload, index)
    case Published(destination) =>
      && destination !in start && destination in entries && entries[destination] == File(j.temp)
      && Complete(j.upload, j.temp) && exists i :: 0 <= i < ATTEMPTS && Claims(entries, j.upload, i, destination)
    case Failed(error) => error == AlreadyExists ==> Taken(entries, j.upload, ATTEMPTS)
  }

  /** `destination` is the name tried at `i`, after finding the names before it taken. */
  ghost predicate Claims(entries: Entries, upload: Upload, i: nat, destination: text) {
    upload.Try(i) == Some(destination) && Taken(entries, upload, i)
  }

  ghost predicate Distinct(jobs: seq<Job>) {
    forall i, k :: 0 <= i < k < |jobs| && jobs[i].phase.Published? && jobs[k].phase.Published? ==>
      jobs[i].phase.destination != jobs[k].phase.destination
  }

  ghost predicate Inv(start: Entries, s: State) {
    && Kept(start, s.entries)
    && (forall i :: 0 <= i < |s.jobs| ==> JobInv(start, s.entries, s.jobs[i]))
    && Distinct(s.jobs)
  }

  lemma {:induction false} JobStays(start: Entries, before: Entries, after: Entries, j: Job)
    requires JobInv(start, before, j) && Kept(before, after)
    ensures JobInv(start, after, j)
  {
    if j.phase.Published? {
      var i :| 0 <= i < ATTEMPTS && Claims(before, j.upload, i, j.phase.destination);
      assert Claims(after, j.upload, i, j.phase.destination);
    }
  }

  lemma {:induction false} LinkKeeps(start: Entries, entries: Entries, j: Job, refused: bool)
    requires Kept(start, entries) && JobInv(start, entries, j) && j.phase.Linking?
    ensures var (after, k) := LinkStep(entries, j, refused);
      && Kept(entries, after) && JobInv(start, after, k)
      && (k.phase.Published? ==> k.phase.destination !in entries)
  {
    var (after, k) := LinkStep(entries, j, refused);
    if k.phase.Published? { assert Claims(after, j.upload, j.phase.index, k.phase.destination); }
  }

  /** One job moves on, the others stay; only a newly published name may be new to the distinct ones. */
  lemma {:induction false} ContinueKeeps(start: Entries, s: State, k: nat, entries: Entries, after: Job)
    requires Inv(start, s) && k < |s.jobs| && !s.jobs[k].phase.Published?
    requires Kept(s.entries, entries) && JobInv(start, entries, after)
    requires after.phase.Published? ==> after.phase.destination !in s.entries
    ensures Inv(start, State(entries, s.jobs[k := after]))
  {
    var jobs := s.jobs[k := after];
    forall i | 0 <= i < |jobs| ensures JobInv(start, entries, jobs[i]) {
      if i != k { JobStays(start, s.entries, entries, s.jobs[i]); }
    }
    forall i | 0 <= i < |s.jobs| && s.jobs[i].phase.Published? ensures s.jobs[i].phase.destination in s.entries {
      assert JobInv(start, s.entries, s.jobs[i]);
    }
  }

  lemma {:induction false} ReceiveKeeps(start: Entries, entries: Entries, j: Job, refused: bool)
    requires JobInv(start, entries, j) && j.phase.Receiving?
    ensures JobInv(start, entries, ReceiveStep(j, refused)) && !ReceiveStep(j, refused).phase.Published?
  {
  }

  lemma {:induction false} AppearsKeeps(start: Entries, s: State, entries: Entries)
    requires Inv(start, s) && Kept(s.entries, entries)
    ensures Inv(start, s.(entries := entries))
  {
    forall i | 0 <= i < |s.jobs| ensures JobInv(start, entries, s.jobs[i]) {
      JobStays(start, s.entries, entries, s.jobs[i]);
    }
  }

  lemma {:induction false} ApplyKeeps(start: Entries, s: State, e: Event)
    requires Inv(start, s)
    ensures Inv(start, Apply(s, e)) && Kept(s.entries, Apply(s, e).entries)
  {
    match e
    case Start(upload) =>
    case Appears(name, entry) => AppearsKeeps(start, s, Apply(s, e).entries);
    case Continue(k, refused) =>
      if k < |s.jobs| {
        var j := s.jobs[k];
        if j.phase.Receiving? {
          ReceiveKeeps(start, s.entries, j, refused);
          ContinueKeeps(start, s, k, s.entries, ReceiveStep(j, refused));
        } else if j.phase.Linking? {
          LinkKeeps(start, s.entries, j, refused);
          var (entries, after) := LinkStep(s.entries, j, refused);
          ContinueKeeps(start, s, k, entries, after);
        }
      }
  }

  lemma {:induction false} RunKeeps(start: Entries, s: State, events: seq<Event>)
    requires Inv(start, s)
    ensures Inv(start, Run(s, events)) && Kept(s.entries, Run(s, events).entries)
    decreases |events|
  {
    if events != [] {
      ApplyKeeps(start, s, events[0]);
      RunKeeps(start, Apply(s, events[0]), events[1..]);
    }
  }

  /**
   * However the uploads interleave with each other and with other programs that add entries, no
   * entry is ever replaced, and what was published stays published with the upload's complete bytes
   * under a name of its own: its first candidate that was free.
   */
  lemma {:induction false} UploadsArePublished(start: Entries, first: seq<Event>, more: seq<Event>, k: nat)
    requires var s := Run(State(start, []), first);
      k < |s.jobs| && s.jobs[k].phase.Published?
    ensures
      var s := Run(State(start, []), first);
      var later := Run(s, more);
      var d := s.jobs[k].phase.destination;
      && Kept(start, later.entries) && Kept(s.entries, later.entries)
      && d !in start && d in later.entries
      && later.entries[d].File? && Complete(s.jobs[k].upload, later.entries[d].content)
      && (exists i :: 0 <= i < ATTEMPTS && Claims(s.entries, s.jobs[k].upload, i, d))
      && (forall l :: 0 <= l < |s.jobs| && l != k && s.jobs[l].phase.Published? ==> s.jobs[l].phase.destination != d)
  {
    var s := Run(State(start, []), first);
    RunKeeps(start, State(start, []), first);
    RunKeeps(start, s, more);
    assert JobInv(start, s.entries, s.jobs[k]);
  }

  /** An upload gives up for want of a name only when every name it may use is taken. */
  lemma {:induction false} GivesUpOnlyWhenFull(start: Entries, events: seq<Event>, k: nat)
    requires var s := Run(State(start, []), events); k < |s.jobs| && s.jobs[k].phase == Failed(AlreadyExists)
    ensures var s := Run(State(start, []), events); Taken(s.entries, s.jobs[k].upload, ATTEMPTS)
  {
    RunKeeps(start, State(start, []), events);
    var s := Run(State(start, []), events);
    assert JobInv(start, s.entries, s.jobs[k]);
  }
}
