/** The resumable download of `scripts/native_models.py`: a bounded retry loop
    over a partial file that survives failures, crashes and restarts.

    The server is any function of the request number and the requested offset;
    the process may crash before any step and in the middle of any write. */
module Download {
  import opened Sequences
  import opened Wrappers

  type Bytes = seq<bv8>

  /** A response: the chunks that `read` returns, then the end of the body or,
      when `broken`, an I/O error. Failed: the request itself raised. */
  datatype Response = Failed | Reply(status: nat, chunks: seq<Bytes>, broken: bool)

  /** The lock file admits sizes of at least one byte. */
  type Positive = n: nat | n > 0 witness 1

  type Server = (nat, nat) -> Response

  datatype Reason = TooLarge | Refused | NoProgress | Transport | RetryLimit | SizeMismatch | DigestMismatch

  datatype Outcome = Done | Raised(reason: Reason) | Crashed

  const MAX_REQUESTS: nat := 20

  /** What the read loop takes from a response: it stops at an empty chunk. */
  function Body(chunks: seq<Bytes>): Bytes {
    if chunks == [] || chunks[0] == [] then [] else chunks[0] + Body(chunks[1..])
  }

  /** The response is written after what is there already. */
  predicate Appends(offset: nat, status: nat) {
    offset > 0 && status == 206
  }

  predicate Accepted(offset: nat, status: nat) {
    offset == 0 || status == 200 || status == 206
  }

  /** Where writing starts. */
  function Start(offset: nat, status: nat): nat {
    if Appends(offset, status) then offset else 0
  }

  /** A 206 body is a prefix of the requested remainder, any other accepted
      body a prefix of the file. */
  ghost predicate Honest(server: Server, truth: Bytes) {
    forall k: nat, offset: nat ::
      offset <= |truth| && server(k, offset).Reply? && Accepted(offset, server(k, offset).status) ==>
        Body(server(k, offset).chunks) <= truth[Start(offset, server(k, offset).status)..]
  }

  /** Every response arrives whole and extends the partial file by at least `c`
      bytes, or by all that is missing. */
  ghost predicate Extends(server: Server, size: nat, c: nat) {
    forall k: nat, offset: nat ::
      offset < size ==>
        && server(k, offset).Reply? && !server(k, offset).broken && Accepted(offset, server(k, offset).status)
        && Start(offset, server(k, offset).status) + |Body(server(k, offset).chunks)|
             >= offset + if c < size - offset then c else size - offset
  }

  /** Every request is answered with the whole file. */
  ghost predicate Whole(server: Server, content: Bytes) {
    forall k: nat, offset: nat :: server(k, offset) == Reply(200, [content], false)
  }

  lemma {:induction false} BodyConcat(front: seq<Bytes>, chunks: seq<Bytes>)
    requires forall i :: 0 <= i < |front| ==> front[i] != []
    ensures Body(front + chunks) == Body(front) + Body(chunks)
  {
    if front == [] {
      assert front + chunks == chunks;
    } else {
      assert (front + chunks)[1..] == front[1..] + chunks;
      BodyConcat(front[1..], chunks);
    }
  }

  lemma BodyOne(chunk: Bytes)
    ensures Body([chunk]) == chunk
  {
    assert [chunk][1..] == [];
    assert chunk + [] == chunk;
  }

  /** The body ends at the first empty chunk, whatever follows. */
  lemma BodyStops(front: seq<Bytes>, rest: seq<Bytes>)
    requires forall i :: 0 <= i < |front| ==> front[i] != []
    ensures Body(front + [[]] + rest) == Body(front)
  {
    assert front + [[]] + rest == front + ([[]] + rest);
    BodyConcat(front, [[]] + rest);
    assert Body([[]] + rest) == [];
    assert Body(front) + [] == Body(front);
  }

  lemma BodySplit(chunks: seq<Bytes>, i: nat)
    requires i <= |chunks| && forall j :: 0 <= j < i ==> chunks[j] != []
    ensures Body(chunks) == Body(chunks[..i]) + Body(chunks[i..])
  {
    hide Body;
    BodyConcat(chunks[..i], chunks[i..]);
    assert chunks[..i] + chunks[i..] == chunks;
  }

  lemma BodyStep(chunks: seq<Bytes>, i: nat)
    requires i < |chunks| && forall j :: 0 <= j <= i ==> chunks[j] != []
    ensures Body(chunks[..i + 1]) == Body(chunks[..i]) + chunks[i]
    ensures Body(chunks[..i]) + chunks[i] <= Body(chunks)
  {
    hide Body;
    var front := chunks[..i + 1];
    BodySplit(front, i);
    PrefixStep(chunks, i);
    BodyOne(chunks[i]);
    BodySplit(chunks, i + 1);
    PrefixOfConcat(Body(front), Body(chunks[i + 1..]));
  }

  lemma PrefixOfConcat<T>(a: seq<T>, b: seq<T>)
    ensures a <= a + b
  {
  }

  lemma BodyEnd(chunks: seq<Bytes>, i: nat)
    requires i <= |chunks| && forall j :: 0 <= j < i ==> chunks[j] != []
    requires i < |chunks| ==> chunks[i] == []
    ensures Body(chunks[..i]) == Body(chunks)
  {
    BodySplit(chunks, i);
    assert Body(chunks[i..]) == [];
  }

  class Target<Digest(==)> {
    const size: Positive
    const digest: Digest
    const hash: Bytes -> Digest
    var partial: Option<Bytes>
    var destination: Option<Bytes>
    ghost var requests: nat

    constructor (size: Positive, digest: Digest, hash: Bytes -> Digest, partial: Option<Bytes>, destination: Option<Bytes>)
      ensures this.partial == partial && this.destination == destination && requests == 0
      ensures this.size == size && this.digest == digest && this.hash == hash
    {
      this.size, this.digest, this.hash := size, digest, hash;
      this.partial, this.destination, this.requests := partial, destination, 0;
    }

    predicate Verified(content: Bytes) {
      |content| == size && hash(content) == digest
    }

    function Offset(): nat
      reads this`partial
    {
      if partial.Some? then |partial.value| else 0
    }

    /** The partial file is too long, or complete with other bytes. */
    predicate Stuck()
      reads this`partial
    {
      Offset() > size || (Offset() == size && !Verified(partial.value))
    }

    /** What any caller may rely on: the partial file is a prefix of the truth. */
    predicate Prefix(truth: Bytes)
      reads this`partial
    {
      partial.Some? ==> partial.value <= truth
    }

    /** Write the body of one response; a crash may tear the last write. */
    method WriteBody(reply: Response, offset: nat, mayCrash: bool) returns (outcome: Outcome, ghost written: Bytes)
      requires reply.Reply? && offset == Offset() && Accepted(offset, reply.status)
      modifies this`partial
      ensures partial == Some((if Appends(offset, reply.status) then old(partial).value else []) + written)
      ensures written <= Body(reply.chunks)
      ensures outcome == Done ==> written == Body(reply.chunks) && !reply.broken
      ensures outcome == Done || outcome == Crashed || (outcome == Raised(Transport) && reply.broken)
      ensures outcome == Crashed ==> mayCrash
    {
      hide Body;
      ghost var kept := if Appends(offset, reply.status) then partial.value else [];
      if !Appends(offset, reply.status) {
        partial := Some([]);
      }
      BodyNothing();
      written := [];
      assert kept + written == kept;
      var i := 0;
      while i < |reply.chunks| && reply.chunks[i] != []
        invariant 0 <= i <= |reply.chunks|
        invariant forall j :: 0 <= j < i ==> reply.chunks[j] != []
        invariant partial == Some(kept + written) && written == Body(reply.chunks[..i]) <= Body(reply.chunks)
      {
        var chunk := reply.chunks[i];
        BodyStep(reply.chunks, i);
        var crash: bool := *;
        if mayCrash && crash {
          var torn: nat :| torn <= |chunk|;
          Append3(kept, written, chunk[..torn]);
          TornPrefix(written, chunk, torn);
          partial := Some(partial.value + chunk[..torn]);
          written := written + chunk[..torn];
          return Crashed, written;
        }
        Append3(kept, written, chunk);
        partial := Some(partial.value + chunk);
        written := written + chunk;
        i := i + 1;
      }
      BodyEnd(reply.chunks, i);
      outcome := if reply.broken then Raised(Transport) else Done;
    }

    lemma BodyNothing()
      ensures forall chunks: seq<Bytes> :: Body(chunks[..0]) == []
    {
    }

    lemma Append3(a: Bytes, b: Bytes, c: Bytes)
      ensures (a + b) + c == a + (b + c)
    {
    }

    lemma TornPrefix(a: Bytes, b: Bytes, n: nat)
      requires n <= |b|
      ensures a + b[..n] <= a + b
    {
    }

    lemma PrefixTransitive(a: Bytes, b: Bytes, c: Bytes)
      requires a <= b && b <= c
      ensures a <= c
    {
    }

    lemma AppendPrefix(kept: Bytes, written: Bytes, truth: Bytes)
      requires kept <= truth && written <= truth[|kept|..]
      ensures kept + written <= truth
    {
      assert truth == truth[..|kept|] + truth[|kept|..];
    }

    /** One request of the loop, from the size check on. */
    method Request(server: Server, attempt: nat, mayCrash: bool, ghost truth: Bytes, ghost c: nat) returns (outcome: Outcome)
      requires Offset() < size
      modifies this`partial, this`requests
      ensures requests == old(requests) + 1
      ensures Honest(server, truth) && old(Prefix(truth)) ==> Prefix(truth)
      ensures outcome == Done ==> partial.Some?
      ensures outcome != Raised(SizeMismatch) && outcome != Raised(DigestMismatch)
      ensures Extends(server, size, c) && c > 0 ==> outcome == Done || outcome == Crashed
      ensures outcome == Crashed ==> mayCrash
      ensures outcome != Raised(TooLarge) && outcome != Raised(RetryLimit)
      ensures var reply, offset := server(attempt, old(Offset())), old(Offset());
        && (outcome == Raised(Refused) <==> reply.Reply? && offset > 0 && reply.status != 200 && reply.status != 206)
        && (reply.Failed? || outcome == Raised(Refused) ==> partial == old(partial))
        && (reply.Failed? ==> outcome == Raised(Transport))
        && (reply.Reply? && !reply.broken && outcome != Raised(Refused) && outcome != Crashed ==>
              && partial == Some((if offset > 0 && reply.status == 206 then old(partial.value) else []) + Body(reply.chunks))
              && outcome == (if Body(reply.chunks) == [] then Raised(NoProgress) else Done))
      ensures Whole(server, truth) && |truth| == size && outcome != Crashed ==> outcome == Done && partial == Some(truth)
      ensures Extends(server, size, c) && outcome == Done ==> Offset() >= size || Offset() >= old(Offset()) + c
    {
      hide Body;
      var offset := Offset();
      requests := requests + 1;
      var reply := server(attempt, offset);
      if reply.Failed? {
        return Raised(Transport);
      }
      if !Accepted(offset, reply.status) {
        return Raised(Refused);
      }
      ghost var kept := if Appends(offset, reply.status) then partial.value else [];
      ghost var written;
      outcome, written := WriteBody(reply, offset, mayCrash);
      if Whole(server, truth) {
        BodyOne(truth);
        assert [] + truth == truth;
      }
      if Honest(server, truth) && old(Prefix(truth)) {
        assert Body(server(attempt, offset).chunks) <= truth[Start(offset, reply.status)..];
        PrefixTransitive(written, Body(reply.chunks), truth[|kept|..]);
        AppendPrefix(kept, written, truth);
      }
      if outcome == Done && Offset() <= Start(offset, reply.status) {
        return Raised(NoProgress);
      }
    }

    /** `made` requests have brought at least `made * c` of the missing bytes. */
    ghost predicate OnSchedule(c: nat, missing: int, made: nat)
      reads this`partial
    {
      Offset() >= size || missing - (size - Offset()) >= made * c
    }

    lemma ScheduleStep(c: nat, made: nat)
      ensures (made + 1) * c == made * c + c
    {
    }

    lemma ScheduleEnd(c: nat, missing: int, n: nat)
      requires missing > 0 && n >= MAX_REQUESTS && MAX_REQUESTS * c >= missing
      ensures n * c >= missing && c > 0
    {
      if n > MAX_REQUESTS {
        assert n * c == MAX_REQUESTS * c + (n - MAX_REQUESTS) * c;
      }
    }

    /** The server and the initial partial file meet the promises below. */
    ghost predicate Good(server: Server, truth: Bytes)
      reads this`partial
    {
      Honest(server, truth) && Prefix(truth)
    }

    /** A good server that is fast enough for the retry limit. */
    ghost predicate Fast(server: Server, truth: Bytes, c: nat)
      reads this`partial
    {
      && Good(server, truth) && |truth| == size
      && Extends(server, size, c) && MAX_REQUESTS * c >= size - Offset()
    }

    /** `_download_file`. For every server at most 20 requests are made, the loop
        ends normally only at exactly the locked size, and the destination is
        only ever replaced by verified bytes. Against an honest server the
        partial file stays a prefix of the true content; if responses also
        extend it fast enough, the download completes in time. A partial file
        that is too long, or complete and wrong, is never repaired. */
    method DownloadFile(server: Server, mayCrash: bool, ghost truth: Bytes, ghost c: nat) returns (outcome: Outcome)
      modifies this`partial, this`destination, this`requests
      ensures old(requests) <= requests <= old(requests) + 20
      ensures outcome != Raised(SizeMismatch)
      ensures destination != old(destination) || outcome == Done ==>
        destination.Some? && |destination.value| == size && hash(destination.value) == digest && partial == None
      ensures outcome == Raised(RetryLimit) ==> requests == old(requests) + 20
      ensures old(Good(server, truth)) ==> Prefix(truth)
      ensures old(Good(server, truth)) && |truth| == size && outcome == Done ==> destination == Some(truth)
      ensures old(Fast(server, truth, c)) ==>
        && (outcome == Crashed || outcome == (if hash(truth) == digest then Done else Raised(DigestMismatch)))
        && (requests == old(requests) || (requests - old(requests) - 1) * c < size - old(Offset()))
      ensures old(Offset()) > size ==>
        requests == old(requests) && partial == old(partial) && (outcome == Crashed || outcome == Raised(TooLarge))
      ensures old(Offset()) == size ==> requests == old(requests)
      ensures old(Offset()) == size && !Verified(old(partial.value)) ==>
        partial == old(partial) && (outcome == Crashed || outcome == Raised(DigestMismatch))
      ensures outcome == Crashed ==> mayCrash
      ensures outcome == Raised(DigestMismatch) || outcome == Raised(TooLarge) ==> Stuck()
      ensures outcome.Raised? || (old(Good(server, truth)) && |truth| < size) ==> destination == old(destination)
      ensures Whole(server, truth) && Verified(truth) && outcome != Crashed ==> (outcome == Done <==> !old(Stuck()))
    {
      hide Honest, Extends;
      var made;
      outcome, made := Fill(server, mayCrash, truth, c);
      if outcome != Done {
        return;
      }
      if old(Good(server, truth)) && |truth| == size {
        assert partial.value <= truth && |partial.value| == |truth|;
        assert partial.value == truth;
      }
      if hash(partial.value) != digest {
        return Raised(DigestMismatch);
      }
      var crash: bool := *;
      if mayCrash && crash {
        return Crashed;
      }
      destination, partial := partial, None;
      crash := *;
      return if mayCrash && crash then Crashed else Done;
    }

    /** The retry loop of `_download_file`. */
    method Fill(server: Server, mayCrash: bool, ghost truth: Bytes, ghost c: nat) returns (outcome: Outcome, made: nat)
      modifies this`partial, this`requests
      ensures requests == old(requests) + made && made <= MAX_REQUESTS
      ensures outcome != Raised(SizeMismatch) && outcome != Raised(DigestMismatch)
      ensures outcome == Done ==> Offset() == size && partial.Some?
      ensures old(Good(server, truth)) ==> Prefix(truth)
      ensures old(Fast(server, truth, c)) ==>
        && (outcome == Crashed || outcome == Done)
        && (made > 0 ==> (made - 1) * c < size - old(Offset()))
      ensures old(Offset()) >= size ==> made == 0 && partial == old(partial)
      ensures old(Offset()) == size ==> outcome == Done || outcome == Crashed
      ensures old(Offset()) > size ==> outcome == Raised(TooLarge) || outcome == Crashed
      ensures outcome == Crashed ==> mayCrash
      ensures outcome == Raised(TooLarge) ==> Offset() > size
      ensures outcome == Raised(RetryLimit) ==> made == MAX_REQUESTS
      ensures Whole(server, truth) && Verified(truth) && !old(Stuck()) && outcome != Crashed ==>
        outcome == Done && Verified(partial.value)
    {
      hide Honest, Extends;
      ghost var missing := size - Offset();
      made := 0;
      while made < MAX_REQUESTS && Offset() != size
        modifies this`partial, this`requests
        invariant requests == old(requests) + made && made <= MAX_REQUESTS
        invariant old(Good(server, truth)) ==> Prefix(truth)
        invariant old(Offset()) >= size ==> made == 0 && partial == old(partial)
        invariant old(Fast(server, truth, c)) ==> OnSchedule(c, missing, made) && Offset() <= size
        invariant old(Fast(server, truth, c)) && made > 0 ==> (made - 1) * c < missing
        invariant Whole(server, truth) && Verified(truth) && !old(Stuck()) ==> !Stuck() && (made > 0 ==> Offset() == size)
      {
        var crash: bool := *;
        if mayCrash && crash {
          return Crashed, made;
        }
        if Offset() > size {
          return Raised(TooLarge), made;
        }
        ScheduleStep(c, made);
        outcome := Request(server, made, mayCrash, truth, c);
        made := made + 1;
        if outcome != Done {
          return;
        }
      }
      var crash: bool := *;
      if mayCrash && crash {
        return Crashed, made;
      }
      if Offset() != size {
        if old(Fast(server, truth, c)) {
          ScheduleEnd(c, missing, made);
        }
        return Raised(RetryLimit), made;
      }
      return Done, made;
    }
  }

  /** Any number of calls, each against its own server and possibly crashing.
      The partial file stays a prefix of the truth as long as every server is
      honest; the destination holds what it held, or verified bytes; and once
      the partial file is stuck, nothing is requested and nothing changes. */
  method DownloadRepeatedly<Digest>(target: Target<Digest>, servers: seq<Server>, ghost truth: Bytes)
    modifies target`partial, target`destination, target`requests
    ensures (forall i :: 0 <= i < |servers| ==> Honest(servers[i], truth)) && old(target.Prefix(truth)) ==>
      target.Prefix(truth)
    ensures target.destination == old(target.destination) ||
      (target.destination.Some? && target.Verified(target.destination.value))
    ensures old(target.Stuck()) ==>
      target.partial == old(target.partial) && target.requests == old(target.requests)
      && target.destination == old(target.destination)
  {
    hide Honest;
    for n := 0 to |servers|
      invariant (forall i :: 0 <= i < |servers| ==> Honest(servers[i], truth)) && old(target.Prefix(truth)) ==>
        target.Prefix(truth)
      invariant target.destination == old(target.destination) ||
        (target.destination.Some? && target.Verified(target.destination.value))
      invariant old(target.Stuck()) ==>
        target.partial == old(target.partial) && target.requests == old(target.requests)
        && target.destination == old(target.destination)
    {
      var _ := target.DownloadFile(servers[n], true, truth, 0);
    }
  }

  /** Whether a file of the locked size and hash can still be fetched: a server
      that sends it whole completes the download if and only if the partial file
      is not stuck, whatever else it holds. */
  method Recover<Digest>(target: Target<Digest>, content: Bytes) returns (outcome: Outcome)
    requires |content| == target.size && target.hash(content) == target.digest
    modifies target`partial, target`destination, target`requests
    ensures outcome == Done <==> !old(target.Stuck())
    ensures old(target.Stuck()) <==> old(target.partial.Some? &&
      (|target.partial.value| > target.size ||
       (|target.partial.value| == target.size && target.hash(target.partial.value) != target.digest)))
    ensures old(target.Stuck()) ==> target.Stuck() && target.destination == old(target.destination)
  {
    var server: Server := (k: nat, offset: nat) => Reply(200, [content], false);
    assert Whole(server, content);
    outcome := target.DownloadFile(server, false, content, 0);
  }

  /** How a partial file becomes stuck: an honest server breaks off, and the next
      one serves changed content of the same size from there. */
  method BecomesStuck<Digest(==)>(hash: Bytes -> Digest, truth: Bytes, changed: Bytes) returns (target: Target<Digest>)
    requires |truth| == |changed| > 1 && truth[0] == changed[0] && hash(truth) != hash(changed)
    ensures target.size == |truth| && target.hash == hash && target.digest == hash(truth)
    ensures target.Stuck() && target.destination == None
  {
    target := new Target(|truth|, hash(truth), hash, None, None);
    var head := truth[..1];
    var breaks: Server := (k: nat, offset: nat) => if k == 0 then Reply(200, [head], false) else Failed;
    BodyOne(head);
    assert Honest(breaks, head);
    var first := target.DownloadFile(breaks, false, head, 0);
    assert target.Prefix(changed);
    var serves: Server := (k: nat, offset: nat) =>
      if offset > |changed| then Failed else Reply(if offset == 0 then 200 else 206, [changed[offset..]], false);
    forall offset: nat | offset <= |changed|
      ensures Body([changed[offset..]]) == changed[offset..]
    {
      BodyOne(changed[offset..]);
    }
    assert Honest(serves, changed);
    assert Extends(serves, target.size, |changed|);
    var second := target.DownloadFile(serves, false, changed, |changed|);
  }

  ghost predicate Untouched<Digest>(target: Target<Digest>, partial: Option<Bytes>, destination: Option<Bytes>, requests: nat)
    reads target
  {
    target.partial == partial && target.destination == destination && target.requests == requests
  }

  /** `_verify_file` on what a destination holds, absent or not. */
  ghost predicate Locked<Digest>(target: Target<Digest>)
    reads target
  {
    target.destination.Some? && target.Verified(target.destination.value)
  }

  /** `verify_model` */
  method VerifyModel<Digest>(targets: seq<Target<Digest>>) returns (ok: bool)
    ensures ok <==> forall t :: t in targets ==> Locked(t)
  {
    for i := 0 to |targets|
      invariant forall j :: 0 <= j < i ==> Locked(targets[j])
    {
      var t := targets[i];
      if t.destination.None? || !t.Verified(t.destination.value) {
        assert t in targets && !Locked(t);
        return false;
      }
    }
    return true;
  }

  /** The file is in place, or can be fetched: its partial file is not stuck and
      the server sends content of the locked size and hash whole. */
  ghost predicate Obtainable<Digest>(target: Target<Digest>, server: Server, content: Bytes)
    reads target
  {
    Locked(target) || (target.destination.None? && !target.Stuck() && Whole(server, content) && target.Verified(content))
  }

  /** `bootstrap_model` over the files of one model. It is done only when every
      file is in place with the locked bytes. A file that was there at the start
      is never requested, repaired or replaced: one with other bytes makes every
      run fail. If every file is in place or can be fetched, it is done. */
  method BootstrapModel<Digest>(targets: seq<Target<Digest>>, servers: seq<Server>, mayCrash: bool, ghost contents: seq<Bytes>)
    returns (outcome: Outcome)
    requires |servers| == |targets| == |contents| && Distinct(targets)
    modifies set t | t in targets
    ensures outcome == Done ==> forall t :: t in targets ==> Locked(t)
    ensures forall t :: t in targets && old(t.destination.Some?) ==>
      Untouched(t, old(t.partial), old(t.destination), old(t.requests))
    ensures forall t :: t in targets && t.destination != old(t.destination) ==> Locked(t)
    ensures (exists t :: t in targets && old(t.destination.Some? && !Locked(t))) ==> outcome != Done
    ensures forall t :: t in targets ==> t.requests <= old(t.requests) + MAX_REQUESTS
    ensures !mayCrash && (forall i :: 0 <= i < |targets| ==> old(Obtainable(targets[i], servers[i], contents[i]))) ==> outcome == Done
  {
    hide Honest, Extends;
    var i := 0;
    while i < |targets|
      invariant 0 <= i <= |targets|
      invariant forall j :: i <= j < |targets| ==>
        Untouched(targets[j], old(targets[j].partial), old(targets[j].destination), old(targets[j].requests))
      invariant forall t :: t in targets && old(t.destination.Some?) ==>
        Untouched(t, old(t.partial), old(t.destination), old(t.requests))
      invariant forall t :: t in targets && t.destination != old(t.destination) ==> Locked(t)
      invariant forall t :: t in targets ==> t.requests <= old(t.requests) + MAX_REQUESTS
      invariant forall j :: 0 <= j < i ==> Locked(targets[j])
    {
      var target := targets[i];
      if target.destination.Some? {
        if |target.destination.value| != target.size { return Raised(SizeMismatch); }
        if target.hash(target.destination.value) != target.digest { return Raised(DigestMismatch); }
      } else {
        outcome := target.DownloadFile(servers[i], mayCrash, contents[i], 0);
        if outcome != Done { return; }
      }
      i := i + 1;
    }
    var ok := VerifyModel(targets);
    return if ok then Done else Raised(DigestMismatch);
  }
}
