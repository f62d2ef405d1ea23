/** The upload of a user set to RoleLogic: one PUT, or a session of chunks that is committed at the end. */
module RoleLogic {
  import opened Wrappers
  import opened Errors
  import opened Collation

  /** How RoleLogic answers a call. Only an accepted write changes what it holds. */
  datatype Reply = Accepted | Gone | Disabled | Held | Refused

  const PUT_MAX_USERS: nat := 100_000
  const CHUNK_SIZE: nat := 100_000

  /** How many chunks `chunks(CHUNK_SIZE)` yields. */
  function ChunkCount(n: nat): nat {
    (n + CHUNK_SIZE - 1) / CHUNK_SIZE
  }

  /** The i-th chunk. */
  function Chunk(users: seq<string>, i: nat): (chunk: seq<string>)
    requires i < ChunkCount(|users|)
    ensures 1 <= |chunk| <= CHUNK_SIZE
  {
    var start := i * CHUNK_SIZE;
    var end := start + CHUNK_SIZE;
    if end <= |users| then users[start..end] else users[start..]
  }

  function Concat(chunks: seq<seq<string>>): seq<string> {
    if chunks == [] then [] else Concat(chunks[..|chunks| - 1]) + chunks[|chunks| - 1]
  }

  /** The answers to the calls of one upload; `refused` are the chunks that are not accepted. */
  datatype UploadNet = UploadNet(put: Reply, start: Reply, refused: set<nat>, commit: Reply, cancel: Reply)

  const ALL_ACCEPTED := UploadNet(Accepted, Accepted, {}, Accepted, Accepted)

  /** Starting a session tells apart a vanished and a disabled link. */
  function StartReply(reply: Reply): Reply {
    if reply == Held then Refused else reply
  }

  /** A commit tells apart a held write only. */
  function CommitReply(reply: Reply): Reply {
    if reply in {Accepted, Held} then reply else Refused
  }

  /** What the upload of n users comes to: the first call that is not accepted decides. */
  function UploadReply(n: nat, net: UploadNet): Reply {
    if n <= PUT_MAX_USERS then net.put
    else if net.start != Accepted then StartReply(net.start)
    else if exists i :: i in net.refused && i < ChunkCount(n) then Refused
    else CommitReply(net.commit)
  }

  function UploadError(reply: Reply): AppError {
    match reply
    case Gone => RoleLinkNotFound
    case Disabled => RoleLinkDisabled
    case Held => RemovalHeld
    case _ => OtherError
  }

  // ---------- What the answers mean for the caller ----------

  /** None of the chunks of a list of n users is refused. */
  predicate ChunksAccepted(n: nat, net: UploadNet) {
    forall i :: i in net.refused ==> i * 100_000 >= n
  }

  /** Every call of the upload is accepted: the PUT, or the whole session. */
  predicate UploadAccepted(n: nat, net: UploadNet) {
    if n <= 100_000 then net.put == Accepted
    else net.start == Accepted && ChunksAccepted(n, net) && net.commit == Accepted
  }

  predicate UploadGone(n: nat, net: UploadNet) {
    if n <= 100_000 then net.put == Gone else net.start == Gone
  }

  predicate UploadDisabled(n: nat, net: UploadNet) {
    if n <= 100_000 then net.put == Disabled else net.start == Disabled
  }

  /** RoleLogic holds the write back: it would remove too many members. */
  predicate UploadHeld(n: nat, net: UploadNet) {
    if n <= 100_000 then net.put == Held
    else net.start == Accepted && ChunksAccepted(n, net) && net.commit == Held
  }

  lemma UploadReplyTells(n: nat, net: UploadNet)
    ensures UploadReply(n, net) == Accepted <==> UploadAccepted(n, net)
    ensures UploadReply(n, net) == Gone <==> UploadGone(n, net)
    ensures UploadReply(n, net) == Disabled <==> UploadDisabled(n, net)
    ensures UploadReply(n, net) == Held <==> UploadHeld(n, net)
  {
    forall i: nat
      ensures i < ChunkCount(n) <==> i * 100_000 < n
    {
    }
  }

  /** RoleLogic's side of one link: what it holds, and what an open session has staged. */
  class RemoteLink {
    var users: set<string>
    var staged: Option<seq<seq<string>>>

    constructor (users: set<string>)
      ensures this.users == users && staged == None
    {
      this.users, staged := users, None;
    }

    method ReplaceUsers(list: seq<string>, reply: Reply) returns (r: Result<nat, AppError>)
      modifies this`users
      ensures reply == Accepted ==> users == AsSet(list) && r == Ok(|list|)
      ensures reply != Accepted ==> users == old(users) && r == Err(UploadError(reply))
    {
      if reply == Accepted {
        users := AsSet(list);
        r := Ok(|list|);
      } else {
        r := Err(UploadError(reply));
      }
    }

    method StartUpload(reply: Reply) returns (r: Result<(), AppError>)
      modifies this`staged
      ensures reply == Accepted ==> staged == Some([]) && r == Ok(())
      ensures reply != Accepted ==> staged == old(staged) && r == Err(UploadError(StartReply(reply)))
    {
      if reply == Accepted {
        staged := Some([]);
        r := Ok(());
      } else {
        r := Err(UploadError(StartReply(reply)));
      }
    }

    method UploadChunk(chunk: seq<string>, reply: Reply) returns (r: Result<(), AppError>)
      requires staged.Some?
      modifies this`staged
      ensures reply == Accepted ==> staged == Some(old(staged).value + [chunk]) && r == Ok(())
      ensures reply != Accepted ==> staged == old(staged) && r == Err(OtherError)
    {
      if reply == Accepted {
        staged := Some(staged.value + [chunk]);
        r := Ok(());
      } else {
        r := Err(OtherError);
      }
    }

    method CommitUpload(reply: Reply) returns (r: Result<nat, AppError>)
      requires staged.Some?
      modifies this
      ensures reply == Accepted ==>
        var list := Concat(old(staged).value);
        users == AsSet(list) && staged == None && r == Ok(|list|)
      ensures reply != Accepted ==>
        users == old(users) && staged == old(staged) && r == Err(UploadError(CommitReply(reply)))
    {
      if reply == Accepted {
        var list := Concat(staged.value);
        users := AsSet(list);
        staged := None;
        r := Ok(|list|);
      } else {
        r := Err(UploadError(CommitReply(reply)));
      }
    }

    method CancelUpload(reply: Reply)
      modifies this`staged
      ensures staged == if reply == Accepted then None else old(staged)
    {
      if reply == Accepted {
        staged := None;
      }
    }

    /**
     * All or nothing, for a list of any length: RoleLogic holds exactly the list when every call was
     * accepted, and otherwise what it held before. The error is that of the first call refused.
     */
    method UploadUsers(list: seq<string>, net: UploadNet) returns (r: Result<nat, AppError>)
      modifies this
      ensures UploadReply(|list|, net) == Accepted ==> users == AsSet(list) && r == Ok(|list|)
      ensures UploadReply(|list|, net) != Accepted ==>
        users == old(users) && r == Err(UploadError(UploadReply(|list|, net)))
      ensures UploadAccepted(|list|, net) ==> users == AsSet(list) && r == Ok(|list|)
      ensures !UploadAccepted(|list|, net) ==> users == old(users) && r.Err?
      ensures UploadGone(|list|, net) ==> r == Err(RoleLinkNotFound)
      ensures UploadDisabled(|list|, net) ==> r == Err(RoleLinkDisabled)
      ensures UploadHeld(|list|, net) ==> r == Err(RemovalHeld)
      ensures r.Err? ==>
        r == Err(OtherError) || UploadGone(|list|, net) || UploadDisabled(|list|, net) || UploadHeld(|list|, net)
    {
      hide ChunkCount, Concat, Chunks, ChunksAccepted;
      UploadReplyTells(|list|, net);
      if |list| <= PUT_MAX_USERS {
        r := ReplaceUsers(list, net.put);
        return;
      }
      var started := StartUpload(net.start);
      if started.Err? {
        return Err(started.error);
      }
      var count := ChunkCount(|list|);
      ChunksStart(list);
      for i := 0 to count
        invariant users == old(users)
        invariant staged == Some(Chunks(list, i))
        invariant forall k :: k in net.refused ==> k >= i
      {
        ChunksGrow(list, i);
        var sent := UploadChunk(Chunk(list, i), if i in net.refused then Refused else Accepted);
        if sent.Err? {
          CancelUpload(net.cancel);
          return Err(sent.error);
        }
      }
      ChunksConcatenate(list, count);
      r := CommitUpload(net.commit);
    }
  }

  /** The first n chunks. */
  function Chunks(users: seq<string>, n: nat): (chunks: seq<seq<string>>)
    requires n <= ChunkCount(|users|)
    ensures |chunks| == n
  {
    if n == 0 then [] else Chunks(users, n - 1) + [Chunk(users, n - 1)]
  }

  lemma ChunksStart(users: seq<string>)
    ensures Chunks(users, 0) == []
  {
  }

  lemma ChunksGrow(users: seq<string>, n: nat)
    requires n < ChunkCount(|users|)
    ensures Chunks(users, n + 1) == Chunks(users, n) + [Chunk(users, n)]
  {
  }

  /** Where the first n chunks end. */
  function EndOf(users: seq<string>, n: nat): nat {
    if n * CHUNK_SIZE <= |users| then n * CHUNK_SIZE else |users|
  }

  /** n chunks carry the list up to where the n-th ends; all of them carry the whole list, in order. */
  lemma {:induction false} ChunksConcatenate(users: seq<string>, n: nat)
    requires n <= ChunkCount(|users|)
    ensures Concat(Chunks(users, n)) == users[..EndOf(users, n)]
    ensures n == ChunkCount(|users|) ==> Concat(Chunks(users, n)) == users
  {
    LastChunkEnds(users);
    if n == 0 {
      assert EndOf(users, 0) == 0;
    } else {
      hide ChunkCount, Chunk, EndOf, Concat;
      ChunksConcatenate(users, n - 1);
      ChunkIsNext(users, n - 1);
      ConcatGrows(Chunks(users, n - 1), Chunk(users, n - 1));
    }
  }

  lemma LastChunkEnds(users: seq<string>)
    ensures EndOf(users, ChunkCount(|users|)) == |users|
  {
  }

  lemma ChunkIsNext(users: seq<string>, n: nat)
    requires n < ChunkCount(|users|)
    ensures EndOf(users, n) <= EndOf(users, n + 1)
    ensures users[..EndOf(users, n)] + Chunk(users, n) == users[..EndOf(users, n + 1)]
  {
    var start, end := EndOf(users, n), EndOf(users, n + 1);
    assert Chunk(users, n) == users[start..end];
  }

  lemma ConcatGrows(chunks: seq<seq<string>>, chunk: seq<string>)
    ensures Concat(chunks + [chunk]) == Concat(chunks) + chunk
  {
    assert (chunks + [chunk])[..|chunks|] == chunks;
  }
}
