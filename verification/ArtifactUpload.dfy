/** Multipart upload of a large artifact: the part plan, the workers that share one part index, and
    the completion that assembles the object. */
module ArtifactUpload {
  import opened Prelude
  import opened Sorting

  const MIN_PART_SIZE: nat := 5 * 1024 * 1024
  const DEFAULT_PART_SIZE: nat := 64 * 1024 * 1024
  const MAX_PARTS: nat := 10_000

  // ----- The part plan -----

  function CeilDiv(a: nat, b: nat): nat
    requires 0 < b
  {
    (a + b - 1) / b
  }

  function ResolveMultipartPartSize(contentLength: nat, requested: Option<int>): nat {
    var wanted := if requested.Some? then requested.value else DEFAULT_PART_SIZE;
    Max(Max(wanted, DEFAULT_PART_SIZE), Max(MIN_PART_SIZE, CeilDiv(contentLength, MAX_PARTS)))
  }

  function PartNumbers(count: nat): seq<int> {
    seq(count, i => i + 1)
  }

  datatype Session = Session(partSize: nat, parts: seq<int>)

  /** The part numbers and part size of a new session, or the refusal of an over-long plan. */
  function CreateMultipartUploadSession(contentLength: nat, requested: Option<int>): Result<Session, string> {
    var partSize := ResolveMultipartPartSize(contentLength, requested);
    assert 0 < partSize;
    var partCount := CeilDiv(contentLength, partSize);
    if partCount > MAX_PARTS then Err("Multipart upload would exceed the 10,000 part S3 limit")
    else Ok(Session(partSize, PartNumbers(partCount)))
  }

  lemma CeilDivBounds(a: nat, b: nat)
    requires 0 < b
    ensures CeilDiv(a, b) * b < a + b && a <= CeilDiv(a, b) * b
    ensures 0 < CeilDiv(a, b) <==> 0 < a
  {
    var q := CeilDiv(a, b);
    assert (a + b - 1) == q * b + (a + b - 1) % b;
    if a == 0 {
      assert (b - 1) / b == 0;
    }
  }

  lemma CeilDivIsLeast(a: nat, b: nat, n: nat)
    requires 0 < b && a <= n * b
    ensures CeilDiv(a, b) <= n
  {
    CeilDivBounds(a, b);
    var q := CeilDiv(a, b);
    assert n < q ==> (n + 1) * b <= q * b;
  }

  /** The over-limit guard never fires: every plan fits in 10,000 parts of at least 64 MiB, honours a
      larger requested size, and has a part whenever there is content. */
  lemma PlanFits(contentLength: nat, requested: Option<int>)
    ensures var plan := CreateMultipartUploadSession(contentLength, requested);
            && plan.Ok?
            && |plan.value.parts| <= 10_000
            && (1 <= |plan.value.parts| <==> 0 < contentLength)
            && 67_108_864 <= plan.value.partSize
            && (requested.Some? ==> requested.value <= plan.value.partSize)
  {
    var partSize := ResolveMultipartPartSize(contentLength, requested);
    CeilDivBounds(contentLength, MAX_PARTS);
    assert contentLength <= MAX_PARTS * partSize;
    CeilDivIsLeast(contentLength, partSize, MAX_PARTS);
    CeilDivBounds(contentLength, partSize);
  }

  /** And no part size would do with less: a smaller one is below 64 MiB, below the requested size, or takes
      more than 10,000 parts. */
  lemma PlanIsLeast(contentLength: nat, requested: Option<int>, smaller: nat)
    requires smaller < ResolveMultipartPartSize(contentLength, requested)
    ensures || smaller < 67_108_864
            || (requested.Some? && smaller < requested.value)
            || 10_000 * smaller < contentLength
  {
    if contentLength <= 10_000 * smaller {
      CeilDivIsLeast(contentLength, MAX_PARTS, smaller);
    }
  }

  // ----- The byte range of a part -----

  function RangeStart(partSize: nat, partNumber: int): int {
    (partNumber - 1) * partSize
  }

  /** The last byte of the range, inclusive. */
  function RangeEnd(fileSize: nat, partSize: nat, partNumber: int): int {
    Min(RangeStart(partSize, partNumber) + partSize, fileSize) - 1
  }

  predicate IsPart(fileSize: nat, partSize: nat, partNumber: int) {
    0 < partSize && 1 <= partNumber && RangeStart(partSize, partNumber) < fileSize
  }

  /** The body of a part: the bytes of its range. */
  function Slice(file: seq<Byte>, partSize: nat): int -> seq<Byte> {
    (partNumber: int) =>
      if IsPart(|file|, partSize, partNumber)
      then file[RangeStart(partSize, partNumber)..RangeEnd(|file|, partSize, partNumber) + 1]
      else []
  }

  /** The byte ranges of count parts are non-empty, contiguous and full except possibly the last, start
      at the first byte of the file and end at its last. */
  ghost predicate RangesPartition(fileSize: nat, partSize: nat, count: nat) {
    && 1 <= count
    && RangeStart(partSize, 1) == 0
    && RangeEnd(fileSize, partSize, count) == fileSize - 1
    && (forall p :: 1 <= p <= count ==> IsPart(fileSize, partSize, p))
    && (forall p :: 1 <= p < count ==>
          && RangeEnd(fileSize, partSize, p) + 1 == RangeStart(partSize, p + 1)
          && RangeEnd(fileSize, partSize, p) - RangeStart(partSize, p) + 1 == partSize)
  }

  lemma CeilDivRangesPartition(fileSize: nat, partSize: nat, count: nat)
    requires 0 < fileSize && 0 < partSize && fileSize <= count * partSize < fileSize + partSize
    ensures RangesPartition(fileSize, partSize, count)
  {
    LastRange(fileSize, partSize, count);
    RangeStartStep(partSize, 0);
    forall p | 1 <= p <= count ensures IsPart(fileSize, partSize, p) {
      RangeIsInside(fileSize, partSize, count, p);
    }
    forall p | 1 <= p < count
      ensures RangeEnd(fileSize, partSize, p) + 1 == RangeStart(partSize, p + 1)
      ensures RangeEnd(fileSize, partSize, p) - RangeStart(partSize, p) + 1 == partSize
    {
      RangeIsInside(fileSize, partSize, count, p);
    }
  }

  /** The ranges of every plan partition the file exactly. */
  lemma PlanPartitionsFile(contentLength: nat, requested: Option<int>)
    requires 0 < contentLength
    ensures var s := CreateMultipartUploadSession(contentLength, requested);
            s.Ok? && RangesPartition(contentLength, s.value.partSize, |s.value.parts|)
  {
    PlanFits(contentLength, requested);
    var partSize := ResolveMultipartPartSize(contentLength, requested);
    CeilDivBounds(contentLength, partSize);
    CeilDivRangesPartition(contentLength, partSize, CeilDiv(contentLength, partSize));
  }

  lemma RangeStartStep(partSize: nat, p: int)
    ensures RangeStart(partSize, p + 1) == RangeStart(partSize, p) + partSize
  {
    assert ((p - 1) + 1) * partSize == (p - 1) * partSize + partSize;
  }

  lemma {:induction false} RangeStartOrder(partSize: nat, p: int, q: int)
    requires p <= q
    ensures RangeStart(partSize, p) <= RangeStart(partSize, q)
    decreases q - p
  {
    if p < q {
      RangeStartStep(partSize, p);
      RangeStartOrder(partSize, p + 1, q);
    }
  }

  /** Every range starts inside the file, and one that is not the last is full and meets the next. */
  lemma RangeIsInside(fileSize: nat, partSize: nat, count: nat, p: int)
    requires 1 <= p <= count && 0 < partSize && RangeStart(partSize, count) < fileSize
    ensures IsPart(fileSize, partSize, p)
    ensures p < count ==>
              && RangeEnd(fileSize, partSize, p) + 1 == RangeStart(partSize, p + 1)
              && RangeEnd(fileSize, partSize, p) - RangeStart(partSize, p) + 1 == partSize
  {
    RangeStartOrder(partSize, p, count);
    if p < count {
      RangeStartStep(partSize, p);
      RangeStartOrder(partSize, p + 1, count);
    }
  }

  lemma LastRange(fileSize: nat, partSize: nat, count: nat)
    requires 0 < fileSize && 0 < partSize && fileSize <= count * partSize < fileSize + partSize
    ensures 1 <= count && RangeStart(partSize, count) < fileSize
    ensures RangeEnd(fileSize, partSize, count) == fileSize - 1
  {
    assert RangeStart(partSize, count + 1) == count * partSize;
    RangeStartStep(partSize, count);
  }

  // ----- Upload by workers that share the next index -----

  datatype UploadedPart = UploadedPart(partNumber: int, eTag: string)

  predicate ByPartNumber(a: UploadedPart, b: UploadedPart) {
    a.partNumber <= b.partNumber
  }

  function Numbers(uploaded: seq<UploadedPart>): (numbers: seq<int>)
    ensures |numbers| == |uploaded|
    ensures forall i :: 0 <= i < |uploaded| ==> numbers[i] == uploaded[i].partNumber
  {
    seq(|uploaded|, i requires 0 <= i < |uploaded| => uploaded[i].partNumber)
  }

  /** Sorting parts sorts their numbers. */
  lemma {:induction false} SortSortsNumbers(uploaded: seq<UploadedPart>)
    ensures Numbers(Sort(uploaded, ByPartNumber)) == Sort(Numbers(uploaded), NumberLe)
    ensures forall p :: p in Sort(uploaded, ByPartNumber) <==> p in uploaded
  {
    if uploaded != [] {
      SortSortsNumbers(uploaded[1..]);
      assert Numbers(uploaded)[1..] == Numbers(uploaded[1..]);
      InsertInsertsNumber(uploaded[0], Sort(uploaded[1..], ByPartNumber));
    }
  }

  lemma {:induction false} InsertInsertsNumber(x: UploadedPart, s: seq<UploadedPart>)
    ensures Numbers(Insert(x, s, ByPartNumber)) == Insert(x.partNumber, Numbers(s), NumberLe)
    ensures forall p :: p in Insert(x, s, ByPartNumber) <==> p == x || p in s
  {
    if s != [] {
      var rest := Insert(x, s[1..], ByPartNumber);
      assert Numbers(s)[1..] == Numbers(s[1..]);
      if ByPartNumber(x, s[0]) {
        assert Numbers([x] + s) == [x.partNumber] + Numbers(s);
      } else {
        InsertInsertsNumber(x, s[1..]);
        assert Numbers([s[0]] + rest) == [s[0].partNumber] + Numbers(rest);
      }
    }
  }

  /** What a worker is at: nothing yet, an attempt at a part whose body has or has not reached the store, or
      nothing any more. */
  datatype Worker = Idle | Uploading(part: int, attempt: nat, delivered: bool) | Done

  /** One for a worker that is uploading part p. */
  function Carries(p: int): Worker -> int {
    (w: Worker) => if w.Uploading? && w.part == p then 1 else 0
  }

  function Rank(attempts: nat): Worker -> int {
    (w: Worker) => match w
      case Done => 0
      case Idle => 1
      case Uploading(_, attempt, delivered) => 2 + 2 * Max(0, attempts - attempt) + (if delivered then 0 else 1)
  }

  lemma RanksAreNonNegative(workers: seq<Worker>, attempts: nat)
    ensures 0 <= Sum(workers, Rank(attempts))
  {
    SumIsNonNegative(workers, Rank(attempts));
  }

  /** Every part handed out so far is recorded or being uploaded, as often as it was handed out. */
  ghost predicate Accounted(handedOut: seq<int>, uploaded: seq<UploadedPart>, workers: seq<Worker>) {
    forall p: int :: Count(handedOut, p) == Count(Numbers(uploaded), p) + Sum(workers, Carries(p))
  }

  function Count(numbers: seq<int>, p: int): nat {
    multiset(numbers)[p]
  }

  lemma CountAppend(numbers: seq<int>, q: int, p: int)
    ensures Count(numbers + [q], p) == Count(numbers, p) + (if p == q then 1 else 0)
  {
  }

  lemma TakingKeepsAccount(parts: seq<int>, taken: nat, uploaded: seq<UploadedPart>, workers: seq<Worker>, i: nat)
    requires taken < |parts| && i < |workers| && workers[i].Idle?
    requires Accounted(parts[..taken], uploaded, workers)
    ensures Accounted(parts[..taken + 1], uploaded, workers[i := Uploading(parts[taken], 1, false)])
  {
    assert parts[..taken + 1] == parts[..taken] + [parts[taken]];
    forall p: int
      ensures Count(parts[..taken + 1], p)
           == Count(Numbers(uploaded), p) + Sum(workers[i := Uploading(parts[taken], 1, false)], Carries(p))
    {
      CountAppend(parts[..taken], parts[taken], p);
      SumUpdate(workers, i, Uploading(parts[taken], 1, false), Carries(p));
    }
  }

  lemma RecordingKeepsAccount(handedOut: seq<int>, uploaded: seq<UploadedPart>, workers: seq<Worker>,
                              i: nat, u: UploadedPart)
    requires i < |workers| && workers[i].Uploading? && workers[i].part == u.partNumber
    requires Accounted(handedOut, uploaded, workers)
    ensures Accounted(handedOut, uploaded + [u], workers[i := Idle])
  {
    assert Numbers(uploaded + [u]) == Numbers(uploaded) + [u.partNumber];
    forall p: int
      ensures Count(handedOut, p) == Count(Numbers(uploaded + [u]), p) + Sum(workers[i := Idle], Carries(p))
    {
      CountAppend(Numbers(uploaded), u.partNumber, p);
      SumUpdate(workers, i, Idle, Carries(p));
    }
  }

  /** A worker that retries its part, or stops with none, changes no account. */
  lemma WaitingKeepsAccount(handedOut: seq<int>, uploaded: seq<UploadedPart>, workers: seq<Worker>, i: nat, w: Worker)
    requires i < |workers|
    requires || (workers[i].Idle? && w.Done?)
             || (workers[i].Uploading? && w.Uploading? && w.part == workers[i].part)
    requires Accounted(handedOut, uploaded, workers)
    ensures Accounted(handedOut, uploaded, workers[i := w])
  {
    forall p: int
      ensures Count(handedOut, p) == Count(Numbers(uploaded), p) + Sum(workers[i := w], Carries(p))
    {
      SumUpdate(workers, i, w, Carries(p));
    }
  }

  lemma {:induction false} NothingCarried(workers: seq<Worker>, p: int)
    requires forall w :: w in workers ==> !w.Uploading?
    ensures Sum(workers, Carries(p)) == 0
  {
    if workers != [] {
      assert forall w :: w in workers[..|workers| - 1] ==> w in workers;
      NothingCarried(workers[..|workers| - 1], p);
    }
  }

  /** With no worker uploading, the recorded parts are the parts handed out. */
  lemma AccountCloses(handedOut: seq<int>, uploaded: seq<UploadedPart>, workers: seq<Worker>)
    requires Accounted(handedOut, uploaded, workers) && forall w :: w in workers ==> w.Done?
    ensures multiset(Numbers(uploaded)) == multiset(handedOut)
    ensures Numbers(Sort(uploaded, ByPartNumber)) == Sort(handedOut, NumberLe)
    ensures forall p :: p in Sort(uploaded, ByPartNumber) <==> p in uploaded
  {
    forall p: int ensures multiset(Numbers(uploaded))[p] == multiset(handedOut)[p] {
      NothingCarried(workers, p);
      assert Count(handedOut, p) == Count(Numbers(uploaded), p);
    }
    assert multiset(Numbers(uploaded)) == multiset(handedOut);
    SortSortsNumbers(uploaded);
    NumberLeIsTotal();
    SortForgetsOrder(Numbers(uploaded), handedOut, NumberLe);
  }

  /** The store holds the part's own bytes under every number it knows, and every recorded tag is the
      tag of those bytes. */
  ghost predicate Faithful(body: int -> seq<Byte>, tag: seq<Byte> -> string,
                           uploaded: seq<UploadedPart>, stored: map<int, seq<Byte>>)
  {
    && (forall p :: p in stored ==> stored[p] == body(p))
    && (forall u :: u in uploaded ==> u.partNumber in stored && u.eTag == tag(stored[u.partNumber]))
  }

  /** The store knows the part of every worker whose body has reached it. */
  predicate DeliveredAreStored(workers: seq<Worker>, stored: map<int, seq<Byte>>) {
    forall i :: 0 <= i < |workers| && workers[i].Uploading? && workers[i].delivered ==> workers[i].part in stored
  }

  predicate SomeoneWorks(workers: seq<Worker>) {
    exists i :: 0 <= i < |workers| && !workers[i].Done?
  }

  lemma UpdatedWorks(workers: seq<Worker>, i: nat, w: Worker)
    requires i < |workers| && !w.Done?
    ensures SomeoneWorks(workers[i := w])
  {
    assert !workers[i := w][i].Done?;
  }

  lemma WorkFalls(workers: seq<Worker>, i: nat, w: Worker, attempts: nat)
    requires i < |workers| && Rank(attempts)(w) < Rank(attempts)(workers[i])
    ensures Sum(workers[i := w], Rank(attempts)) < Sum(workers, Rank(attempts))
  {
    SumUpdate(workers, i, w, Rank(attempts));
  }

  /** What every moment of an upload keeps. */
  ghost predicate Intact(parts: seq<int>, next: nat, workers: seq<Worker>, uploaded: seq<UploadedPart>,
                         stored: map<int, seq<Byte>>, body: int -> seq<Byte>, tag: seq<Byte> -> string)
  {
    && (next < |parts| ==> SomeoneWorks(workers))
    && DeliveredAreStored(workers, stored)
    && Accounted(parts[..Min(next, |parts|)], uploaded, workers)
    && Faithful(body, tag, uploaded, stored)
  }

  lemma TakingKeepsIntact(parts: seq<int>, next: nat, workers: seq<Worker>, uploaded: seq<UploadedPart>,
                          stored: map<int, seq<Byte>>, body: int -> seq<Byte>, tag: seq<Byte> -> string, i: nat)
    requires Intact(parts, next, workers, uploaded, stored, body, tag) && i < |workers| && workers[i].Idle?
    ensures next < |parts| ==>
              Intact(parts, next + 1, workers[i := Uploading(parts[next], 1, false)], uploaded, stored, body, tag)
    ensures next >= |parts| ==> Intact(parts, next + 1, workers[i := Done], uploaded, stored, body, tag)
  {
    if next < |parts| {
      TakingKeepsAccount(parts, next, uploaded, workers, i);
      UpdatedWorks(workers, i, Uploading(parts[next], 1, false));
    } else {
      WaitingKeepsAccount(parts[..|parts|], uploaded, workers, i, Done);
    }
  }

  lemma DeliveringKeepsIntact(parts: seq<int>, next: nat, workers: seq<Worker>, uploaded: seq<UploadedPart>,
                              stored: map<int, seq<Byte>>, body: int -> seq<Byte>, tag: seq<Byte> -> string, i: nat)
    requires Intact(parts, next, workers, uploaded, stored, body, tag) && i < |workers| && workers[i].Uploading?
    ensures var w := workers[i].(delivered := true);
            Intact(parts, next, workers[i := w], uploaded, stored[w.part := body(w.part)], body, tag)
  {
    var w := workers[i].(delivered := true);
    WaitingKeepsAccount(parts[..Min(next, |parts|)], uploaded, workers, i, w);
    UpdatedWorks(workers, i, w);
  }

  lemma RecordingKeepsIntact(parts: seq<int>, next: nat, workers: seq<Worker>, uploaded: seq<UploadedPart>,
                             stored: map<int, seq<Byte>>, body: int -> seq<Byte>, tag: seq<Byte> -> string, i: nat)
    requires Intact(parts, next, workers, uploaded, stored, body, tag)
    requires i < |workers| && workers[i].Uploading? && workers[i].delivered
    ensures workers[i].part in stored
    ensures Intact(parts, next, workers[i := Idle],
                   uploaded + [UploadedPart(workers[i].part, tag(stored[workers[i].part]))], stored, body, tag)
  {
    var u := UploadedPart(workers[i].part, tag(stored[workers[i].part]));
    RecordingKeepsAccount(parts[..Min(next, |parts|)], uploaded, workers, i, u);
    UpdatedWorks(workers, i, Idle);
  }

  lemma RetryingKeepsIntact(parts: seq<int>, next: nat, workers: seq<Worker>, uploaded: seq<UploadedPart>,
                            stored: map<int, seq<Byte>>, body: int -> seq<Byte>, tag: seq<Byte> -> string, i: nat)
    requires Intact(parts, next, workers, uploaded, stored, body, tag) && i < |workers| && workers[i].Uploading?
    ensures Intact(parts, next, workers[i := Uploading(workers[i].part, workers[i].attempt + 1, false)],
                   uploaded, stored, body, tag)
  {
    var again := Uploading(workers[i].part, workers[i].attempt + 1, false);
    WaitingKeepsAccount(parts[..Min(next, |parts|)], uploaded, workers, i, again);
    UpdatedWorks(workers, i, again);
  }

  /** What the workers of one upload share: the next index, the recorded parts and the object store,
      which keeps the last body sent under a part number and answers with its tag. */
  class UploadPool {
    const body: int -> seq<Byte>
    const parts: seq<int>
    const attempts: nat
    const tag: seq<Byte> -> string
    var nextPartIndex: nat
    var workers: seq<Worker>
    var uploaded: seq<UploadedPart>
    var stored: map<int, seq<Byte>>

    ghost predicate Valid()
      reads this
    {
      Intact(parts, nextPartIndex, workers, uploaded, stored, body, tag)
    }

    function Taken(): nat
      reads this
    {
      Min(nextPartIndex, |parts|)
    }

    function Work(): nat
      reads this
    {
      RanksAreNonNegative(workers, attempts);
      Sum(workers, Rank(attempts))
    }

    constructor (body: int -> seq<Byte>, parts: seq<int>, concurrency: nat, attempts: nat, tag: seq<Byte> -> string)
      requires 1 <= concurrency
      ensures Valid() && this.parts == parts && this.body == body && this.tag == tag && this.attempts == attempts
      ensures nextPartIndex == 0 && uploaded == [] && stored == map[]
      ensures |workers| == Min(concurrency, |parts|) && forall i :: 0 <= i < |workers| ==> workers[i].Idle?
    {
      this.body, this.parts, this.attempts, this.tag := body, parts, attempts, tag;
      nextPartIndex := 0;
      workers := seq(Min(concurrency, |parts|), _ => Idle);
      uploaded := [];
      stored := map[];
      new;
      forall p: int ensures Sum(workers, Carries(p)) == 0 {
        NothingCarried(workers, p);
      }
      assert workers != [] ==> !workers[0].Done?;
    }

    /** An idle worker is resumed: it takes the part at the shared index, or stops when there is none. */
    method TakePart(i: nat)
      requires Valid() && i < |workers| && workers[i].Idle?
      modifies this
      ensures Valid() && nextPartIndex == old(nextPartIndex) + 1
      ensures Taken() > old(Taken()) || (Taken() == old(Taken()) && Work() < old(Work()))
      ensures uploaded == old(uploaded) && stored == old(stored)
      ensures var next := old(nextPartIndex);
              workers == old(workers)[i := if next < |parts| then Uploading(parts[next], 1, false) else Done]
    {
      TakingKeepsIntact(parts, nextPartIndex, workers, uploaded, stored, body, tag, i);
      if nextPartIndex < |parts| {
        workers := workers[i := Uploading(parts[nextPartIndex], 1, false)];
      } else {
        WorkFalls(workers, i, Done, attempts);
        workers := workers[i := Done];
      }
      nextPartIndex := nextPartIndex + 1;
    }

    /** The body of the worker's part reaches the store; the answer is still under way. */
    method Deliver(i: nat)
      requires Valid() && i < |workers| && workers[i].Uploading? && !workers[i].delivered
      modifies this`stored, this`workers
      ensures Valid() && Work() < old(Work())
      ensures stored == old(stored)[old(workers)[i].part := body(old(workers)[i].part)]
      ensures workers == old(workers)[i := old(workers)[i].(delivered := true)]
    {
      var w := workers[i].(delivered := true);
      DeliveringKeepsIntact(parts, nextPartIndex, workers, uploaded, stored, body, tag, i);
      WorkFalls(workers, i, w, attempts);
      stored := stored[w.part := body(w.part)];
      workers := workers[i := w];
    }

    /** The store's answer comes back, and the worker records the part under the answered tag. */
    method Record(i: nat)
      requires Valid() && i < |workers| && workers[i].Uploading? && workers[i].delivered
      requires workers[i].part in stored
      modifies this`uploaded, this`workers
      ensures Valid() && Work() < old(Work())
      ensures uploaded == old(uploaded) + [UploadedPart(old(workers)[i].part, tag(stored[old(workers)[i].part]))]
      ensures workers == old(workers)[i := Idle]
    {
      RecordingKeepsIntact(parts, nextPartIndex, workers, uploaded, stored, body, tag, i);
      WorkFalls(workers, i, Idle, attempts);
      uploaded := uploaded + [UploadedPart(workers[i].part, tag(stored[workers[i].part]))];
      workers := workers[i := Idle];
    }

    /** A failed attempt that is neither final nor the last is made again, delivered or not. */
    method Retry(i: nat)
      requires Valid() && i < |workers| && workers[i].Uploading? && workers[i].attempt < attempts
      modifies this`workers
      ensures Valid() && Work() < old(Work())
      ensures workers == old(workers)[i := Uploading(old(workers)[i].part, old(workers)[i].attempt + 1, false)]
    {
      var again := Uploading(workers[i].part, workers[i].attempt + 1, false);
      RetryingKeepsIntact(parts, nextPartIndex, workers, uploaded, stored, body, tag, i);
      WorkFalls(workers, i, again, attempts);
      workers := workers[i := again];
    }
  }

  /** What becomes of one attempt at a part: the store answers with a tag, or the attempt fails, after the
      body has reached the store or before, with an error that is transient or not. */
  datatype Attempted = Answered | Failed(reached: bool, transient: bool)

  /** What becomes of every attempt, by part number and by count from one. */
  type Network = (int, nat) -> Attempted

  /** Every attempt at the part before this one fails, with a transient error. */
  predicate OnlyTransientBefore(net: Network, part: int, attempt: nat) {
    forall k: nat :: 1 <= k < attempt ==> net(part, k).Failed? && net(part, k).transient
  }

  /** Some attempt within the allowed number is answered, after transient errors only. */
  ghost predicate Succeeds(net: Network, part: int, attempts: nat) {
    exists k: nat :: 1 <= k <= attempts && net(part, k).Answered? && OnlyTransientBefore(net, part, k)
  }

  /** An attempt, after transient errors only, fails for good: with an error that is not transient, or as
      the last one allowed. */
  ghost predicate FailsForGood(net: Network, part: int, attempts: nat) {
    exists k: nat ::
      && 1 <= k <= attempts && net(part, k).Failed? && OnlyTransientBefore(net, part, k)
      && (!net(part, k).transient || k == attempts)
  }

  /** Of a part one or the other happens, not both. */
  lemma {:induction false} SucceedsOrFails(net: Network, part: int, attempts: nat, k: nat)
    requires 1 <= k <= attempts && OnlyTransientBefore(net, part, k)
    ensures Succeeds(net, part, attempts) <==> !FailsForGood(net, part, attempts)
    decreases attempts - k
  {
    if net(part, k).Failed? && net(part, k).transient && k < attempts {
      SucceedsOrFails(net, part, attempts, k + 1);
    }
  }

  /** Where the upload stands with the network: every worker's part has failed transiently as often as it is
      tried again, and every recorded part has been answered. */
  ghost predicate Keeping(net: Network, attempts: nat, parts: seq<int>, workers: seq<Worker>,
                          uploaded: seq<UploadedPart>)
  {
    && (forall i :: 0 <= i < |workers| && workers[i].Uploading? ==>
          workers[i].part in parts && 1 <= workers[i].attempt <= attempts
          && OnlyTransientBefore(net, workers[i].part, workers[i].attempt))
    && (forall u :: u in uploaded ==> Succeeds(net, u.partNumber, attempts))
  }

  lemma KeepingUpdates(net: Network, attempts: nat, parts: seq<int>, workers: seq<Worker>, uploaded: seq<UploadedPart>,
                       i: nat, w: Worker)
    requires Keeping(net, attempts, parts, workers, uploaded) && i < |workers|
    requires w.Uploading? ==>
               w.part in parts && 1 <= w.attempt <= attempts && OnlyTransientBefore(net, w.part, w.attempt)
    ensures Keeping(net, attempts, parts, workers[i := w], uploaded)
  {
  }

  lemma KeepingRecords(net: Network, attempts: nat, parts: seq<int>, workers: seq<Worker>, uploaded: seq<UploadedPart>,
                       i: nat, u: UploadedPart)
    requires Keeping(net, attempts, parts, workers, uploaded) && i < |workers| && workers[i].Uploading?
    requires workers[i].part == u.partNumber && net(workers[i].part, workers[i].attempt).Answered?
    ensures Keeping(net, attempts, parts, workers[i := Idle], uploaded + [u])
  {
    assert Succeeds(net, u.partNumber, attempts);
  }

  lemma FailureIsForGood(net: Network, part: int, attempts: nat, attempt: nat)
    requires 1 <= attempt <= attempts && net(part, attempt).Failed? && OnlyTransientBefore(net, part, attempt)
    requires !net(part, attempt).transient || attempt == attempts
    ensures FailsForGood(net, part, attempts) && !Succeeds(net, part, attempts)
  {
    SucceedsOrFails(net, part, attempts, attempt);
  }

  /** One turn of a worker that has not stopped: it takes a part, its body arrives, it is answered, tries
      again, or fails for good. */
  method Turn(pool: UploadPool, i: nat, net: Network) returns (failed: bool)
    requires pool.Valid() && Keeping(net, pool.attempts, pool.parts, pool.workers, pool.uploaded)
    requires 1 <= pool.attempts && i < |pool.workers| && !pool.workers[i].Done?
    modifies pool
    ensures pool.Valid() && Keeping(net, pool.attempts, pool.parts, pool.workers, pool.uploaded)
    ensures failed ==>
              exists p :: p in pool.parts && FailsForGood(net, p, pool.attempts) && !Succeeds(net, p, pool.attempts)
    ensures !failed ==> || pool.Taken() > old(pool.Taken())
                        || (pool.Taken() == old(pool.Taken()) && pool.Work() < old(pool.Work()))
  {
    ghost var attempts, parts, workers, uploaded := pool.attempts, pool.parts, pool.workers, pool.uploaded;
    if pool.workers[i].Idle? {
      pool.TakePart(i);
      KeepingUpdates(net, attempts, parts, workers, uploaded, i, pool.workers[i]);
      return false;
    }
    var part, attempt := pool.workers[i].part, pool.workers[i].attempt;
    var outcome := net(part, attempt);
    if (outcome.Answered? || outcome.reached) && !pool.workers[i].delivered {
      pool.Deliver(i);
      KeepingUpdates(net, attempts, parts, workers, uploaded, i, pool.workers[i]);
    } else if outcome.Answered? {
      pool.Record(i);
      KeepingRecords(net, attempts, parts, workers, uploaded, i, pool.uploaded[|uploaded|]);
    } else if attempt >= pool.attempts || !outcome.transient {
      FailureIsForGood(net, part, attempts, attempt);
      return true;
    } else {
      pool.Retry(i);
      KeepingUpdates(net, attempts, parts, workers, uploaded, i, pool.workers[i]);
    }
    return false;
  }

  /** The upload under an arbitrary scheduler. It succeeds if and only if every part of the plan has an
      attempt, within the number allowed and after transient errors only, that the store answers. Then,
      whatever the interleaving, every part was recorded exactly once, the list is in part order, and the
      store holds every part's own bytes under a matching tag. */
  method UploadMultipartArtifact(file: seq<Byte>, partSize: nat, parts: seq<int>,
                                 concurrency: nat, attempts: nat, tag: seq<Byte> -> string, net: Network)
    returns (result: Result<seq<UploadedPart>, string>, stored: map<int, seq<Byte>>)
    requires 1 <= concurrency && 1 <= attempts
    requires forall p :: p in parts ==> IsPart(|file|, partSize, p)
    ensures result.Ok? <==> forall p :: p in parts ==> Succeeds(net, p, attempts)
    ensures result.Err? ==> exists p :: p in parts && FailsForGood(net, p, attempts)
    ensures result.Ok? ==> Numbers(result.value) == Sort(parts, NumberLe)
    ensures result.Ok? ==> Faithful(Slice(file, partSize), tag, result.value, stored)
  {
    var pool := new UploadPool(Slice(file, partSize), parts, concurrency, attempts, tag);
    while exists i | 0 <= i < |pool.workers| :: !pool.workers[i].Done?
      invariant pool.Valid() && Keeping(net, attempts, parts, pool.workers, pool.uploaded)
      decreases |parts| - pool.Taken(), pool.Work()
    {
      var i :| 0 <= i < |pool.workers| && !pool.workers[i].Done?;
      var failed := Turn(pool, i, net);
      if failed {
        return Err("upload part failed"), pool.stored;
      }
    }
    assert parts[..pool.Taken()] == parts;
    AccountCloses(parts, pool.uploaded, pool.workers);
    AllRecorded(parts, pool.uploaded);
    return Ok(Sort(pool.uploaded, ByPartNumber)), pool.stored;
  }

  /** Every part of the plan is among the records that have its numbers. */
  lemma AllRecorded(parts: seq<int>, uploaded: seq<UploadedPart>)
    requires multiset(Numbers(uploaded)) == multiset(parts)
    ensures forall p :: p in parts ==> exists u :: u in uploaded && u.partNumber == p
  {
    forall p | p in parts ensures exists u :: u in uploaded && u.partNumber == p {
      assert p in multiset(Numbers(uploaded)) && p in Numbers(uploaded);
      var i :| 0 <= i < |uploaded| && Numbers(uploaded)[i] == p;
      assert uploaded[i] in uploaded;
    }
  }

  // ----- Completion -----

  /** The object store assembles the stored parts in the order of the completed list. */
  function Assemble(listed: seq<UploadedPart>, stored: map<int, seq<Byte>>): seq<Byte>
    requires forall u :: u in listed ==> u.partNumber in stored
  {
    if listed == [] then []
    else Assemble(listed[..|listed| - 1], stored) + stored[listed[|listed| - 1].partNumber]
  }

  /** The bytes of the first n parts. */
  function Head(file: seq<Byte>, partSize: nat, n: nat): seq<Byte> {
    if n == 0 then [] else file[..Max(0, RangeEnd(|file|, partSize, n) + 1)]
  }

  lemma SliceExtendsHead(file: seq<Byte>, partSize: nat, count: nat, n: nat)
    requires RangesPartition(|file|, partSize, count) && 1 <= n <= count
    ensures Head(file, partSize, n) == Head(file, partSize, n - 1) + Slice(file, partSize)(n)
  {
    var a, b := RangeStart(partSize, n), RangeEnd(|file|, partSize, n) + 1;
    assert IsPart(|file|, partSize, n);
    assert 1 < n ==> RangeEnd(|file|, partSize, n - 1) + 1 == RangeStart(partSize, (n - 1) + 1);
    RangeStartOrder(partSize, 1, n);
    assert file[..b] == file[..a] + file[a..b];
  }

  lemma {:induction false} AssembledHead(body: int -> seq<Byte>, head: nat -> seq<Byte>,
                                         listed: seq<UploadedPart>, stored: map<int, seq<Byte>>)
    requires head(0) == []
    requires forall n: nat :: n < |listed| ==> head(n + 1) == head(n) + body(n + 1)
    requires forall i :: 0 <= i < |listed| ==> listed[i].partNumber == i + 1
    requires forall u :: u in listed ==> u.partNumber in stored && stored[u.partNumber] == body(u.partNumber)
    ensures Assemble(listed, stored) == head(|listed|)
  {
    if listed != [] {
      var n := |listed| - 1;
      assert listed[n] in listed;
      assert forall u :: u in listed[..n] ==> u in listed;
      AssembledHead(body, head, listed[..n], stored);
      assert head(n + 1) == head(n) + body(n + 1);
    }
  }

  lemma PartNumbersAreSorted(count: nat)
    ensures Sort(PartNumbers(count), NumberLe) == PartNumbers(count)
  {
    NumberLeIsTotal();
    SortedIsFixed(PartNumbers(count), NumberLe);
  }

  lemma PartNumbersAreOneToCount(count: nat)
    ensures forall p :: p in PartNumbers(count) <==> 1 <= p <= count
  {
    forall p | 1 <= p <= count ensures p in PartNumbers(count) {
      assert PartNumbers(count)[p - 1] == p;
    }
  }

  /** Parts that name the whole plan, sorted, are numbered one after the other. */
  lemma SortedPartsAreNumbered(listed: seq<UploadedPart>, count: nat)
    requires multiset(Numbers(listed)) == multiset(PartNumbers(count))
    ensures var sorted := Sort(listed, ByPartNumber);
            && |sorted| == count
            && (forall i :: 0 <= i < count ==> sorted[i].partNumber == i + 1)
            && (forall u :: u in sorted <==> u in listed)
  {
    SortSortsNumbers(listed);
    NumberLeIsTotal();
    SortForgetsOrder(Numbers(listed), PartNumbers(count), NumberLe);
    PartNumbersAreSorted(count);
    var sorted := Sort(listed, ByPartNumber);
    assert Numbers(sorted) == PartNumbers(count);
    assert |sorted| == |Numbers(sorted)| == count;
    assert forall i :: 0 <= i < count ==> sorted[i].partNumber == Numbers(sorted)[i];
  }

  /** completeMultipartUpload on a list in any order, followed by the store's assembly, delivers exactly
      the file when the list names every part of the plan and the store is faithful. */
  lemma CompletedObjectIsFile(file: seq<Byte>, partSize: nat, count: nat, tag: seq<Byte> -> string,
                              listed: seq<UploadedPart>, stored: map<int, seq<Byte>>)
    requires RangesPartition(|file|, partSize, count)
    requires multiset(Numbers(listed)) == multiset(PartNumbers(count))
    requires Faithful(Slice(file, partSize), tag, listed, stored)
    ensures var sorted := Sort(listed, ByPartNumber);
            && (forall u :: u in sorted ==> u.partNumber in stored)
            && Assemble(sorted, stored) == file
  {
    var sorted := Sort(listed, ByPartNumber);
    SortedPartsAreNumbered(listed, count);
    var head := (n: nat) => Head(file, partSize, n);
    forall n: nat | n < |sorted| ensures head(n + 1) == head(n) + Slice(file, partSize)(n + 1) {
      SliceExtendsHead(file, partSize, count, n + 1);
    }
    AssembledHead(Slice(file, partSize), head, sorted, stored);
    assert head(count) == file[..|file|] == file;
  }

  /** The whole transfer of a non-empty artifact, from the plan to the assembled object, for every requested
      part size, scheduler and network: it succeeds if and only if every part of the plan is answered within
      its attempts, and the object is then the file. */
  method TransferArtifact(file: seq<Byte>, requested: Option<int>,
                          concurrency: nat, attempts: nat, tag: seq<Byte> -> string, net: Network)
    returns (delivery: Result<seq<Byte>, string>)
    requires file != [] && 1 <= concurrency && 1 <= attempts
    ensures delivery.Ok? ==> delivery.value == file
    ensures var plan := CreateMultipartUploadSession(|file|, requested);
            plan.Ok? && (delivery.Ok? <==> forall p :: 1 <= p <= |plan.value.parts| ==> Succeeds(net, p, attempts))
  {
    PlanPartitionsFile(|file|, requested);
    var session := CreateMultipartUploadSession(|file|, requested).value;
    var count := |session.parts|;
    var result, stored :=
      UploadMultipartArtifact(file, session.partSize, session.parts, concurrency, attempts, tag, net);
    PartNumbersAreOneToCount(count);
    if result.Err? {
      return Err(result.error);
    }
    PartNumbersAreSorted(count);
    CompletedObjectIsFile(file, session.partSize, count, tag, result.value, stored);
    return Ok(Assemble(Sort(result.value, ByPartNumber), stored));
  }
}
