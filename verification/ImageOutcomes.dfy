/**
 * Every outcome of a download, read off the turns without the running variables of the loop: the turns before go
 * on, and the first one that does not decides.
 */
module ImageOutcomes {
  import opened ImageLoader

  // ---------------------------------------------------------------- the chunks

  /** How many bytes the chunks before turn `n` brought. */
  function Received(env: Environment, n: nat): nat {
    if n == 0 then 0 else Received(env, n - 1) + (if Answered(env, n - 1) then |ChunkAt(env, n - 1).data| else 0)
  }

  /** In time, still wanted, and answered with a chunk. */
  predicate Arrives(env: Environment, k: nat) {
    env(k).validBefore && !env(k).late && env(k).validAfter && Answered(env, k)
  }

  /** The chunk says the same about the image as the one before it. */
  predicate AgreesWithLast(env: Environment, k: nat)
    requires Answered(env, k)
  {
    k > 0 ==>
      && Answered(env, k - 1)
      && ChunkAt(env, k).size == ChunkAt(env, k - 1).size && ChunkAt(env, k).version == ChunkAt(env, k - 1).version
      && ChunkAt(env, k).mime == ChunkAt(env, k - 1).mime && ChunkAt(env, k).hash == ChunkAt(env, k - 1).hash
  }

  predicate AllBytesOf(data: seq<real>): (ok: bool)
    ensures ok <==> forall i | 0 <= i < |data| :: IsByte(data[i])
  {
    forall i | 0 <= i < |data| :: data[i] == data[i].Floor as real && 0.0 <= data[i] <= 255.0
  }

  /** The chunk is in order: the next bytes of an image of at most 16 MiB and one of four types. */
  predicate IsInOrder(env: Environment, k: nat)
    requires Answered(env, k)
  {
    var c, end := ChunkAt(env, k), (Received(env, k) + |ChunkAt(env, k).data|) as real;
    && c.size == c.size.Floor as real && 0.0 < c.size <= 16777216.0
    && |c.data| <= 65536 && AllBytesOf(c.data)
    && c.next == end <= c.size && c.hasMore == (end < c.size) && (c.hasMore ==> c.data != [])
    && c.mime in ["image/png", "image/jpeg", "image/gif", "image/webp"] && c.version != ""
    && AgreesWithLast(env, k)
  }

  /** The loop goes on after this turn. */
  predicate GoesOn(env: Environment, k: nat) {
    Arrives(env, k) && IsInOrder(env, k) && ChunkAt(env, k).hasMore
  }

  /** Turn `n` is the first that does not go on. */
  ghost predicate Decides(env: Environment, n: nat) {
    !GoesOn(env, n) && forall k: nat | k < n :: GoesOn(env, k)
  }

  /** The bytes that turn `k` brought. */
  function BytesOf(env: Environment, k: nat): seq<Byte> {
    if Answered(env, k) && AllBytesOf(ChunkAt(env, k).data) then Bytes(ChunkAt(env, k).data) else []
  }

  /** The bytes of the chunks before turn `n`, one after another. */
  function BytesUpTo(env: Environment, n: nat): seq<Byte> {
    if n == 0 then [] else BytesUpTo(env, n - 1) + BytesOf(env, n - 1)
  }

  /** What turn `n` ends the download with. */
  ghost predicate EndsWith(env: Environment, digest: Digest, n: nat, outcome: Outcome)
    requires Decides(env, n)
  {
    var now := env(n);
    if !now.validBefore then outcome == Cancelled
    else if now.late then outcome == TimedOut
    else if now.reply.Failed? then outcome == RequestFailed
    else if !now.validAfter then outcome == Cancelled
    else if now.reply.OtherKind? then outcome == Unsupported
    else if now.reply.chunk.None? then outcome == (if n == 0 then Absent else Vanished)
    else if !IsInOrder(env, n) then outcome == Invalid
    else
      var c, bytes := ChunkAt(env, n), BytesUpTo(env, n + 1);
      if c.hash.Some? && c.hash.value != "" && digest(bytes) != c.hash.value then outcome == WrongDigest
      else if !now.validAtEnd then outcome == Cancelled
      else outcome == Image(bytes, c.mime)
  }

  // ---------------------------------------------------------------- the loop

  /** The running variables before turn `n`. */
  ghost predicate IsAt(env: Environment, n: nat, p: Progress) {
    && p.offset == Received(env, n) && (n > 0 ==> p.offset > 0)
    && Concat(p.chunks) == BytesUpTo(env, n) && Consistent(p)
    && (n > 0 ==> GoesOn(env, n - 1) &&
                  var c := ChunkAt(env, n - 1);
                  p.size == c.size && p.version == c.version && p.mime == c.mime && p.hash == c.hash)
  }

  lemma AcceptsIff(env: Environment, n: nat, p: Progress)
    requires IsAt(env, n, p) && Answered(env, n)
    ensures Accepts(p, ChunkAt(env, n)) <==> IsInOrder(env, n)
  {
    var c := ChunkAt(env, n);
  }

  lemma TakenBytes(env: Environment, n: nat, p: Progress)
    requires Answered(env, n) && Accepts(p, ChunkAt(env, n)) && Consistent(p) && Concat(p.chunks) == BytesUpTo(env, n)
    ensures var next := Take(p, ChunkAt(env, n));
      Consistent(next) && Concat(next.chunks) == BytesUpTo(env, n + 1)
  {
    TakeIsConsistent(p, ChunkAt(env, n));
  }

  lemma TakenIsAt(env: Environment, n: nat, p: Progress)
    requires IsAt(env, n, p) && GoesOn(env, n) && Accepts(p, ChunkAt(env, n))
    ensures IsAt(env, n + 1, Take(p, ChunkAt(env, n)))
  {
    TakenBytes(env, n, p);
  }

  /** As long as the turns go on the loop is where the chunks say. */
  lemma {:induction false} LoadReaches(env: Environment, digest: Digest, n: nat) returns (p: Progress)
    requires forall k: nat | k < n :: GoesOn(env, k)
    ensures IsAt(env, n, p) && Load(env, digest, 0, START) == Load(env, digest, n, p)
    decreases n
  {
    if n == 0 {
      p := START;
    } else {
      var before := LoadReaches(env, digest, n - 1);
      assert GoesOn(env, n - 1);
      AcceptsIff(env, n - 1, before);
      TakenIsAt(env, n - 1, before);
      p := Take(before, ChunkAt(env, n - 1));
      TurnGoesOn(env, digest, n - 1, before);
    }
  }

  lemma TurnGoesOn(env: Environment, digest: Digest, n: nat, p: Progress)
    requires GoesOn(env, n) && Accepts(p, ChunkAt(env, n))
    ensures Load(env, digest, n, p) == Load(env, digest, n + 1, Take(p, ChunkAt(env, n)))
  {
    assert OneTurn(p, env(n), digest) == More(Take(p, ChunkAt(env, n)));
  }

  /** The last chunk was in order. */
  lemma LastChunkEnds(env: Environment, digest: Digest, n: nat, p: Progress)
    requires Decides(env, n) && IsAt(env, n, p) && Arrives(env, n) && IsInOrder(env, n)
    ensures EndsWith(env, digest, n, Load(env, digest, n, p))
  {
    AcceptsIff(env, n, p);
    TakenBytes(env, n, p);
    assert OneTurn(p, env(n), digest) == Done(Finish(Take(p, ChunkAt(env, n)), env(n).validAtEnd, digest));
  }

  lemma TurnEnds(env: Environment, digest: Digest, n: nat, p: Progress)
    requires Decides(env, n) && IsAt(env, n, p)
    ensures EndsWith(env, digest, n, Load(env, digest, n, p))
  {
    if Arrives(env, n) {
      if IsInOrder(env, n) {
        LastChunkEnds(env, digest, n, p);
      } else {
        AcceptsIff(env, n, p);
      }
    }
  }

  /** The download ends as the first turn says that does not go on. */
  lemma OutcomeIs(env: Environment, digest: Digest, n: nat)
    requires Decides(env, n)
    ensures EndsWith(env, digest, n, Load(env, digest, 0, START))
  {
    var p := LoadReaches(env, digest, n);
    TurnEnds(env, digest, n, p);
  }

  // ---------------------------------------------------------------- there is such a turn

  lemma OffsetStays(env: Environment, n: nat)
    requires GoesOn(env, n)
    ensures Received(env, n) < Received(env, n + 1) < 16777216
  {
  }

  lemma {:induction false} FirstDeciding(env: Environment, n: nat) returns (d: nat)
    requires forall k: nat | k < n :: GoesOn(env, k)
    requires Received(env, n) <= 16777216
    ensures Decides(env, d)
    decreases 16777216 - Received(env, n)
  {
    if GoesOn(env, n) {
      OffsetStays(env, n);
      d := FirstDeciding(env, n + 1);
    } else {
      d := n;
    }
  }

  /** Whatever the server sends, some turn decides, and the download ends as it says. */
  lemma EveryDownloadEnds(env: Environment, digest: Digest) returns (n: nat)
    ensures Decides(env, n) && EndsWith(env, digest, n, Load(env, digest, 0, START))
  {
    n := FirstDeciding(env, 0);
    OutcomeIs(env, digest, n);
  }
}
