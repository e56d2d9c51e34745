/** Resumable downloads: the ranged artifact download with retries, and the bounded download of an
    external file. The network is arbitrary: any attempt may deliver any part of what was asked for and
    may then succeed or fail. */
module ArtifactDownload {
  import opened Prelude

  /** A file on the agent's disk, with the trail of contents it has held. */
  class LocalFile {
    var content: Option<seq<Byte>>
    ghost var trail: seq<seq<Byte>>

    constructor (existing: Option<seq<Byte>>)
      ensures content == existing && trail == []
    {
      content := existing;
      trail := [];
    }

    /** The size of a missing file is zero. */
    function Size(): nat
      reads this
    {
      |Bytes()|
    }

    function Bytes(): seq<Byte>
      reads this
    {
      if content.Some? then content.value else []
    }

    method Remove()
      modifies this
      ensures content == None && Bytes() == [] && trail == old(trail) + [[]]
    {
      content := None;
      trail := trail + [[]];
    }

    method Append(bytes: seq<Byte>)
      modifies this
      ensures Bytes() == old(Bytes()) + bytes && content.Some? && trail == old(trail) + [Bytes()]
    {
      content := Some(Bytes() + bytes);
      trail := trail + [Bytes()];
    }

    method Overwrite(bytes: seq<Byte>)
      modifies this
      ensures Bytes() == bytes && content.Some? && trail == old(trail) + [bytes]
    {
      content := Some(bytes);
      trail := trail + [bytes];
    }
  }

  /** Since the trail was n long, the file has only held prefixes of the artifact, each extending the
      one before, up to its present bytes. */
  ghost predicate Steady(trail: seq<seq<Byte>>, n: nat, artifact: seq<Byte>, now: seq<Byte>) {
    && n <= |trail|
    && now <= artifact
    && (forall k :: n <= k < |trail| ==> trail[k] <= now)
    && (forall j, k :: n <= j <= k < |trail| ==> trail[j] <= trail[k])
  }

  lemma PrefixTransitive(a: seq<Byte>, b: seq<Byte>, c: seq<Byte>)
    requires a <= b && b <= c
    ensures a <= c
  {
  }

  lemma SteadyGrows(trail: seq<seq<Byte>>, n: nat, artifact: seq<Byte>, now: seq<Byte>, next: seq<Byte>)
    requires Steady(trail, n, artifact, now) && now <= next <= artifact
    ensures Steady(trail + [next], n, artifact, next)
  {
    forall k | n <= k < |trail| ensures trail[k] <= next {
      PrefixTransitive(trail[k], now, next);
    }
  }

  lemma PrefixExtends(artifact: seq<Byte>, start: nat, count: nat)
    requires start + count <= |artifact|
    ensures artifact[..start] + artifact[start..start + count] == artifact[..start + count]
  {
  }

  /** The body of one answer is written as it comes in, in chunks of any size, up to where it ends. */
  method ReceiveBody(artifact: seq<Byte>, target: LocalFile, end: nat, ghost n: nat)
    requires target.Size() <= end <= |artifact| && Steady(target.trail, n, artifact, target.Bytes())
    modifies target
    ensures Steady(target.trail, n, artifact, target.Bytes())
    ensures target.Bytes() == artifact[..end]
  {
    while target.Size() < end
      invariant Steady(target.trail, n, artifact, target.Bytes())
      invariant target.Size() <= end
      decreases end - target.Size()
    {
      var start := target.Size();
      var chunk: nat :| 1 <= chunk <= end - start;
      PrefixExtends(artifact, start, chunk);
      assert target.Bytes() == artifact[..start];
      SteadyGrows(target.trail, n, artifact, target.Bytes(), artifact[..start + chunk]);
      target.Append(artifact[start..start + chunk]);
    }
    assert target.Bytes() == artifact[..target.Size()];
  }

  // ----- One range request with its retries -----

  /** What becomes of one attempt: how many bytes come in of what was asked for, none where the answer is no
      partial content, whether the transfer ends well, and whether an error would be transient. */
  datatype Transfer = Transfer(received: nat, ended: bool, transient: bool)

  /** What becomes of the attempts of one request, counted from one. */
  type Attempts = nat -> Transfer

  /** The size of the target after some attempts, each asking for the next part of the artifact. */
  function SizeAfter(net: Attempts, total: nat, partSize: nat, size: nat, count: nat): nat {
    if count == 0 then size
    else
      var before := SizeAfter(net, total, partSize, size, count - 1);
      before + Max(0, Min(net(count).received, Min(partSize, total - before)))
  }

  /** An attempt settles the request when the target is complete before it, or when it ends well and brings
      at least one byte. */
  predicate Settles(net: Attempts, total: nat, partSize: nat, size: nat, k: nat)
    requires 1 <= k
  {
    SizeAfter(net, total, partSize, size, k - 1) >= total || (net(k).ended && 1 <= net(k).received)
  }

  /** An attempt after which another is made, if any is left. */
  predicate GoesOn(net: Attempts, total: nat, partSize: nat, size: nat, k: nat) {
    1 <= k && !Settles(net, total, partSize, size, k) && net(k).transient
  }

  /** No attempt before this one settles the request, and all of them fail with a transient error. */
  predicate OnlyTransientBefore(net: Attempts, total: nat, partSize: nat, size: nat, k: nat) {
    forall j: nat :: 1 <= j < k ==> GoesOn(net, total, partSize, size, j)
  }

  predicate SettlesAt(net: Attempts, total: nat, partSize: nat, size: nat, attempts: nat, k: nat) {
    1 <= k <= attempts && Settles(net, total, partSize, size, k) && OnlyTransientBefore(net, total, partSize, size, k)
  }

  /** The request fails for good: with an error that is not transient, or on the last attempt allowed. */
  predicate FailsAt(net: Attempts, total: nat, partSize: nat, size: nat, attempts: nat, k: nat) {
    && 1 <= k <= attempts && !Settles(net, total, partSize, size, k)
    && OnlyTransientBefore(net, total, partSize, size, k) && (!net(k).transient || k == attempts)
  }

  /** The size of the target when attempt k has settled the request or failed it. */
  function SizeAt(net: Attempts, total: nat, partSize: nat, size: nat, k: nat): nat
    requires 1 <= k
  {
    var before := SizeAfter(net, total, partSize, size, k - 1);
    if before >= total then before else SizeAfter(net, total, partSize, size, k)
  }

  /** A request is settled or fails, at one attempt only. */
  lemma OneAttemptDecides(net: Attempts, total: nat, partSize: nat, size: nat, attempts: nat, j: nat, k: nat)
    requires SettlesAt(net, total, partSize, size, attempts, j) || FailsAt(net, total, partSize, size, attempts, j)
    requires SettlesAt(net, total, partSize, size, attempts, k) || FailsAt(net, total, partSize, size, attempts, k)
    ensures j == k
  {
    assert j < k ==> GoesOn(net, total, partSize, size, j);
    assert k < j ==> GoesOn(net, total, partSize, size, k);
  }

  lemma {:induction false} SizeStaysInside(net: Attempts, total: nat, partSize: nat, size: nat, count: nat)
    requires size <= total
    ensures size <= SizeAfter(net, total, partSize, size, count) <= total
  {
    if count > 0 {
      SizeStaysInside(net, total, partSize, size, count - 1);
    }
  }

  lemma GoingOn(net: Attempts, total: nat, partSize: nat, size: nat, k: nat)
    requires 1 <= k && OnlyTransientBefore(net, total, partSize, size, k)
    requires GoesOn(net, total, partSize, size, k)
    ensures OnlyTransientBefore(net, total, partSize, size, k + 1)
  {
  }

  lemma SizeAfterOneMore(net: Attempts, total: nat, partSize: nat, size: nat, k: nat)
    requires 1 <= k && SizeAfter(net, total, partSize, size, k - 1) < total
    ensures var before := SizeAfter(net, total, partSize, size, k - 1);
            SizeAfter(net, total, partSize, size, k) == before + Min(net(k).received, Min(partSize, total - before))
  {
  }

  /** One attempt at a range that starts at the present size: what comes in is appended as it comes. */
  method TryRange(artifact: seq<Byte>, target: LocalFile, partSize: nat, answer: Transfer, ghost n: nat)
    returns (settled: bool)
    requires 1 <= partSize && target.Size() < |artifact| && Steady(target.trail, n, artifact, target.Bytes())
    modifies target
    ensures Steady(target.trail, n, artifact, target.Bytes())
    ensures old(target.Bytes()) <= target.Bytes()
    ensures target.Size() == old(target.Size()) + Min(answer.received, Min(partSize, |artifact| - old(target.Size())))
    ensures settled <==> answer.ended && 1 <= answer.received
  {
    var currentStart := target.Size();
    var currentEnd := Min(currentStart + partSize, |artifact|) - 1;
    assert target.Bytes() == artifact[..currentStart];
    ReceiveBody(artifact, target, currentStart + Min(answer.received, currentEnd + 1 - currentStart), n);
    return answer.ended && target.Size() > currentStart;
  }

  /** withRetry around one range request. The request succeeds if and only if an attempt within the number
      allowed settles it after transient errors only, and the target then holds exactly what the attempts
      have brought; a failure comes with an error that is not transient or with the last attempt. */
  method FetchRange(artifact: seq<Byte>, target: LocalFile, partSize: nat, attempts: nat, net: Attempts, ghost n: nat)
    returns (outcome: Result<(), string>, ghost k: nat)
    requires 1 <= partSize && 1 <= attempts
    requires Steady(target.trail, n, artifact, target.Bytes()) && target.Size() < |artifact|
    modifies target
    ensures Steady(target.trail, n, artifact, target.Bytes())
    ensures old(target.Bytes()) <= target.Bytes()
    ensures outcome.Ok? ==> SettlesAt(net, |artifact|, partSize, old(target.Size()), attempts, k)
    ensures outcome.Err? ==> FailsAt(net, |artifact|, partSize, old(target.Size()), attempts, k)
    ensures target.Size() == SizeAt(net, |artifact|, partSize, old(target.Size()), k)
    ensures outcome.Ok? ==> old(target.Size()) < target.Size()
  {
    ghost var start, total := target.Size(), |artifact|;
    ghost var first := target.Bytes();
    var attempt := 1;
    while true
      invariant 1 <= attempt <= attempts
      invariant Steady(target.trail, n, artifact, target.Bytes())
      invariant first <= target.Bytes()
      invariant target.Size() == SizeAfter(net, total, partSize, start, attempt - 1)
      invariant OnlyTransientBefore(net, total, partSize, start, attempt)
      decreases attempts - attempt
    {
      k := attempt;
      if target.Size() >= |artifact| {
        return Ok(()), k;
      }
      SizeAfterOneMore(net, total, partSize, start, attempt);
      ghost var before := target.Bytes();
      var settled := TryRange(artifact, target, partSize, net(attempt), n);
      PrefixTransitive(first, before, target.Bytes());
      if settled {
        return Ok(()), k;
      }
      if attempt == attempts || !net(attempt).transient {
        return Err("range request failed"), k;
      }
      GoingOn(net, total, partSize, start, attempt);
      attempt := attempt + 1;
    }
  }

  // ----- The whole download -----

  /** From this size on, each request that the download still makes is settled; requests are counted. */
  ghost predicate Completes(net: nat -> Attempts, total: nat, partSize: nat, attempts: nat, size: nat, request: nat)
    decreases total - size
  {
    || size >= total
    || exists k: nat ::
         && SettlesAt(net(request), total, partSize, size, attempts, k)
         && size < SizeAt(net(request), total, partSize, size, k)
         && Completes(net, total, partSize, attempts, SizeAt(net(request), total, partSize, size, k), request + 1)
  }

  /** The download of an artifact of known size into a target that is missing, over-long or a prefix of
      the artifact. At every moment from the start on the target is a prefix of the artifact, each one
      extending the last, through partial bodies, failed attempts and retries; what was there to resume
      from is kept. It succeeds if and only if every request it makes is settled, and then the target is the
      whole artifact. */
  method DownloadSizedArtifact(artifact: seq<Byte>, target: LocalFile, partSize: nat, attempts: nat,
                               net: nat -> Attempts)
    returns (outcome: Result<(), string>)
    requires 1 <= partSize && 1 <= attempts && artifact != []
    requires target.Size() <= |artifact| ==> target.Bytes() <= artifact
    modifies target
    ensures Steady(target.trail, |old(target.trail)|, artifact, target.Bytes())
    ensures old(target.Size()) <= |artifact| ==> old(target.Bytes()) <= target.Bytes()
    ensures var resumed := if old(target.Size()) <= |artifact| then old(target.Size()) else 0;
            outcome.Ok? <==> Completes(net, |artifact|, partSize, attempts, resumed, 0)
    ensures outcome.Ok? ==> target.Bytes() == artifact
  {
    ghost var n := |target.trail|;
    if target.Size() > |artifact| {
      target.Remove();
    }
    ghost var resumed := target.Bytes();
    var request := 0;
    while true
      invariant Steady(target.trail, n, artifact, target.Bytes())
      invariant resumed <= target.Bytes()
      invariant Completes(net, |artifact|, partSize, attempts, |resumed|, 0)
           <==> Completes(net, |artifact|, partSize, attempts, target.Size(), request)
      decreases |artifact| - target.Size()
    {
      if target.Size() == |artifact| {
        return Ok(());
      }
      ghost var size := target.Size();
      var fetched, k := FetchRange(artifact, target, partSize, attempts, net(request), n);
      RequestDecides(net, |artifact|, partSize, attempts, size, request, k);
      if fetched.Err? {
        return fetched;
      }
      request := request + 1;
    }
  }

  /** One request decides whether the download can complete: it cannot if the request fails, and otherwise
      it can if it can from where the request leaves it. */
  lemma RequestDecides(net: nat -> Attempts, total: nat, partSize: nat, attempts: nat, size: nat, request: nat, k: nat)
    requires size < total
    requires || (SettlesAt(net(request), total, partSize, size, attempts, k)
                 && size < SizeAt(net(request), total, partSize, size, k))
             || FailsAt(net(request), total, partSize, size, attempts, k)
    ensures FailsAt(net(request), total, partSize, size, attempts, k) ==>
              !Completes(net, total, partSize, attempts, size, request)
    ensures SettlesAt(net(request), total, partSize, size, attempts, k) ==>
              (Completes(net, total, partSize, attempts, size, request)
               <==> var next := SizeAt(net(request), total, partSize, size, k);
                    Completes(net, total, partSize, attempts, next, request + 1))
  {
    forall j: nat | SettlesAt(net(request), total, partSize, size, attempts, j) ensures j == k {
      OneAttemptDecides(net(request), total, partSize, size, attempts, j, k);
    }
  }

  predicate HasSize(expectedSize: Option<int>) {
    expectedSize.Some? && 0 < expectedSize.value
  }

  /** The answer to a request for the whole artifact: none that is usable, or a body that stops after some
      bytes, well or not. */
  datatype WholeAnswer = NoAnswer | Body(sent: nat, ended: bool)

  /** downloadArtifact: without a usable size the whole body is fetched once, over whatever was there, and
      nothing checks its length. It then succeeds if and only if there is a body that ends well, and leaves
      what the server chose to send, the artifact only if that is all of it. With a size it succeeds if and
      only if every range request is settled, and leaves the artifact, whatever the answers carry. */
  method DownloadArtifact(artifact: seq<Byte>, expectedSize: Option<int>, target: LocalFile,
                          partSize: nat, attempts: nat, net: nat -> Attempts, whole: WholeAnswer)
    returns (outcome: Result<(), string>)
    requires 1 <= partSize && 1 <= attempts && (whole.Body? ==> whole.sent <= |artifact|)
    requires HasSize(expectedSize) ==>
               && expectedSize.value == |artifact|
               && (target.Size() <= |artifact| ==> target.Bytes() <= artifact)
    modifies target
    ensures !HasSize(expectedSize) ==> (outcome.Ok? <==> whole.Body? && whole.ended)
    ensures !HasSize(expectedSize) ==>
              target.Bytes() == if whole.Body? then artifact[..whole.sent] else old(target.Bytes())
    ensures HasSize(expectedSize) ==>
              var resumed := if old(target.Size()) <= |artifact| then old(target.Size()) else 0;
              outcome.Ok? <==> Completes(net, |artifact|, partSize, attempts, resumed, 0)
    ensures HasSize(expectedSize) && outcome.Ok? ==> target.Bytes() == artifact
    ensures HasSize(expectedSize) ==> target.Bytes() <= artifact
  {
    if expectedSize.None? || expectedSize.value <= 0 {
      match whole {
        case NoAnswer => return Err("Artifact download failed");
        case Body(sent, ended) =>
          target.Overwrite([]);
          ReceiveBody(artifact, target, sent, |target.trail|);
          return if ended then Ok(()) else Err("Artifact download failed");
      }
    }
    outcome := DownloadSizedArtifact(artifact, target, partSize, attempts, net);
  }

  // ----- External files with a byte budget -----

  /** What the remote server answers: a status, the first byte its content range names, a declared
      length, the body, and how the transfer ends. */
  datatype Response = Response(status: int, rangeStart: Option<nat>, declaredLength: Option<int>,
                               body: seq<seq<Byte>>, completed: bool)

  function Flatten(chunks: seq<seq<Byte>>): seq<Byte> {
    if chunks == [] then [] else Flatten(chunks[..|chunks| - 1]) + chunks[|chunks| - 1]
  }

  datatype DownloadError = TooLarge | Rejected | Interrupted | Unreachable

  /** The file never held more than the budget since the trail was n long. */
  ghost predicate WithinBudget(trail: seq<seq<Byte>>, n: nat, maxBytes: nat) {
    forall k :: n <= k < |trail| ==> |trail[k]| <= maxBytes
  }

  /** The limiter between the response and the file: chunks are appended while they fit the budget; the
      first that does not removes the file. */
  method CopyBody(target: LocalFile, maxBytes: nat, body: seq<seq<Byte>>, ghost n: nat) returns (fits: bool)
    requires n <= |target.trail| && WithinBudget(target.trail, n, maxBytes) && target.Size() <= maxBytes
    modifies target
    ensures n <= |target.trail| && WithinBudget(target.trail, n, maxBytes)
    ensures fits <==> |old(target.Bytes())| + |Flatten(body)| <= maxBytes
    ensures if fits then target.Bytes() == old(target.Bytes()) + Flatten(body) else target.content == None
  {
    ghost var base := target.Bytes();
    var total := target.Size();
    for i := 0 to |body|
      invariant n <= |target.trail| && WithinBudget(target.trail, n, maxBytes)
      invariant target.Bytes() == base + Flatten(body[..i])
      invariant total == target.Size() <= maxBytes
    {
      assert body[..i + 1][..i] == body[..i];
      total := total + |body[i]|;
      if total > maxBytes {
        FlattenGrows(body, i + 1);
        target.Remove();
        return false;
      }
      target.Append(body[i]);
    }
    assert body[..|body|] == body;
    return true;
  }

  lemma {:induction false} FlattenGrows(body: seq<seq<Byte>>, i: nat)
    requires i <= |body|
    ensures |Flatten(body[..i])| <= |Flatten(body)|
    decreases |body|
  {
    if i < |body| {
      FlattenGrows(body[..|body| - 1], i);
      assert body[..|body| - 1][..i] == body[..i];
    } else {
      assert body[..i] == body;
    }
  }

  /** What the download has to add to: the old file, if it is asked to resume and the file is not over the
      budget. */
  function KeptSize(resume: bool, size: nat, maxBytes: nat): nat {
    if resume && size <= maxBytes then size else 0
  }

  /** The answer carries on from the end of a kept file. */
  predicate CarriesOn(kept: nat, r: Response) {
    kept > 0 && r.status == 206 && r.rangeStart == Some(kept)
  }

  /** downloadExternalFile against an arbitrary server, which may not answer at all. The target never exceeds
      the budget at any moment, and the answer decides the outcome: it is refused if and only if its status
      is not 2xx or it is partial content from anywhere but the end of a kept file; otherwise it is too large
      if and only if its declared length or its body takes the file past the budget; otherwise it is
      interrupted if and only if the transfer does not end well; otherwise it succeeds. On success the body
      is appended to the kept file if the answer carries on from there, and otherwise is the file. Too large
      a body leaves no file. */
  method DownloadExternalFile(target: LocalFile, maxBytes: nat, resume: bool, answer: Option<Response>)
    returns (outcome: Result<(), DownloadError>)
    modifies target
    ensures |old(target.trail)| <= |target.trail| && WithinBudget(target.trail, |old(target.trail)|, maxBytes)
    ensures target.Size() <= maxBytes
    ensures outcome == Err(Unreachable) <==> answer.None?
    ensures answer.None? ==> target.Size() == KeptSize(resume, old(target.Size()), maxBytes)
    ensures answer.Some? ==>
              var r, kept := answer.value, KeptSize(resume, old(target.Size()), maxBytes);
              var base := if CarriesOn(kept, r) then kept else 0;
              var refused := !(200 <= r.status < 300) || (r.status == 206 && kept > 0 && r.rangeStart != Some(kept));
              var declared := if r.declaredLength.Some? then r.declaredLength.value else 0;
              var over := (0 <= declared && maxBytes < base + declared) || maxBytes < base + |Flatten(r.body)|;
              && (outcome == Err(Rejected) <==> refused)
              && (outcome == Err(TooLarge) <==> !refused && over)
              && (outcome == Err(Interrupted) <==> !refused && !over && !r.completed)
              && (outcome == Ok(()) <==> !refused && !over && r.completed)
              && (!refused && !over ==>
                    target.Bytes() == (if CarriesOn(kept, r) then old(target.Bytes()) else []) + Flatten(r.body))
              && (refused ==> target.Size() == if r.status == 206 then 0 else kept)
    ensures outcome == Err(TooLarge) ==> target.content == None
  {
    ghost var n := |target.trail|;
    if !resume {
      target.Remove();
    }
    var existingSize := target.Size();
    if existingSize > maxBytes {
      target.Remove();
      existingSize := 0;
    }
    if answer.None? {
      return Err(Unreachable);
    }
    var response := answer.value;
    var append := existingSize > 0 && response.status == 206 && response.rangeStart == Some(existingSize);
    if response.status < 200 || response.status >= 300 {
      return Err(Rejected);
    }
    if response.status == 206 && existingSize > 0 && !append {
      target.Remove();
      return Err(Rejected);
    }
    var baseSize := if append then existingSize else 0;
    if response.declaredLength.Some? && response.declaredLength.value >= 0
       && baseSize + response.declaredLength.value > maxBytes {
      target.Remove();
      return Err(TooLarge);
    }
    if !append {
      target.Overwrite([]);
    }
    var fits := CopyBody(target, maxBytes, response.body, n);
    if !fits {
      return Err(TooLarge);
    }
    if !response.completed {
      return Err(Interrupted);
    }
    return Ok(());
  }
}
