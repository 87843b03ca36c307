/**
 * Downloading a preview image in chunks from a server that is not trusted: every chunk is checked against
 * the ones before it, and the bytes are put together only when the last chunk says so.
 */
module ImageLoader {
  import opened Options

  type Byte = b: nat | b < 256

  const MAX_SIZE := 16 * 1024 * 1024
  const MAX_CHUNK := 65536
  const MAX_SAFE_INTEGER := 9007199254740991

  /** Numbers in a reply are whatever the server sent. */
  datatype Chunk = Chunk(
    size: real, version: string, mime: string, hash: Option<string>, data: seq<real>, next: real, hasMore: bool)

  datatype Reply = Failed | OtherKind | Preview(chunk: Option<Chunk>)

  /** What one turn of the loop meets: is the view still valid, has the deadline passed, what came back. */
  datatype Moment = Moment(validBefore: bool, late: bool, reply: Reply, validAfter: bool, validAtEnd: bool)

  type Environment = nat -> Moment
  type Digest = seq<Byte> -> string

  datatype Outcome =
    | Image(bytes: seq<Byte>, mime: string)
    | Absent
    | TimedOut
    | Cancelled
    | RequestFailed
    | Unsupported
    | Vanished
    | Invalid
    | WrongDigest

  predicate IsInteger(x: real) {
    x == x.Floor as real
  }

  predicate IsByte(x: real) {
    IsInteger(x) && 0.0 <= x <= 255.0
  }

  predicate IsImageType(mime: string) {
    mime == "image/png" || mime == "image/jpeg" || mime == "image/gif" || mime == "image/webp"
  }

  /** The running variables of the loop. */
  datatype Progress = Progress(
    offset: nat, size: real, version: string, mime: string, hash: Option<string>, chunks: seq<seq<Byte>>)

  const START := Progress(0, -1.0, "", "", None, [])

  /** The check a chunk must pass: in itself, and against the chunks before it. */
  predicate Accepts(p: Progress, c: Chunk) {
    && IsInteger(c.size) && -(MAX_SAFE_INTEGER as real) <= c.size <= MAX_SAFE_INTEGER as real
    && 0.0 < c.size <= MAX_SIZE as real
    && |c.data| <= MAX_CHUNK
    && c.next == (p.offset + |c.data|) as real
    && c.next <= c.size
    && c.hasMore == (c.next < c.size)
    && (c.hasMore ==> c.data != [])
    && IsImageType(c.mime)
    && c.version != ""
    && (p.offset != 0 ==> p.size == c.size && p.version == c.version && p.mime == c.mime && p.hash == c.hash)
    && (forall i | 0 <= i < |c.data| :: IsByte(c.data[i]))
  }

  function ToByte(x: real): (b: Byte)
    requires IsByte(x)
    ensures b as real == x
  {
    x.Floor
  }

  function Bytes(data: seq<real>): (bytes: seq<Byte>)
    requires forall i | 0 <= i < |data| :: IsByte(data[i])
    ensures |bytes| == |data| && forall i | 0 <= i < |data| :: bytes[i] as real == data[i]
  {
    if data == [] then [] else [ToByte(data[0])] + Bytes(data[1..])
  }

  function Take(p: Progress, c: Chunk): Progress
    requires Accepts(p, c)
  {
    Progress(p.offset + |c.data|, c.size, c.version, c.mime, c.hash, p.chunks + [Bytes(c.data)])
  }

  function Concat(chunks: seq<seq<Byte>>): seq<Byte> {
    if chunks == [] then [] else Concat(chunks[..|chunks| - 1]) + chunks[|chunks| - 1]
  }

  /** The digest is checked only when the server sent a hash that is not empty. */
  predicate Genuine(hash: Option<string>, bytes: seq<Byte>, digest: Digest) {
    hash.Some? && hash.value != "" ==> digest(bytes) == hash.value
  }

  function Finish(p: Progress, validAtEnd: bool, digest: Digest): Outcome {
    var bytes := Concat(p.chunks);
    if !Genuine(p.hash, bytes, digest) then WrongDigest
    else if !validAtEnd then Cancelled
    else Image(bytes, p.mime)
  }

  /** One turn of the loop: the outcome it ends with, or the progress it goes on with. */
  datatype Turn = Done(outcome: Outcome) | More(progress: Progress)

  function OneTurn(p: Progress, now: Moment, digest: Digest): Turn {
    if !now.validBefore then Done(Cancelled)
    else if now.late then Done(TimedOut)
    else if now.reply.Failed? then Done(RequestFailed)
    else if !now.validAfter then Done(Cancelled)
    else if now.reply.OtherKind? then Done(Unsupported)
    else
      match now.reply.chunk
      case None => Done(if p.offset != 0 then Vanished else Absent)
      case Some(c) =>
        if !Accepts(p, c) then Done(Invalid)
        else if c.hasMore then More(Take(p, c))
        else Done(Finish(Take(p, c), now.validAtEnd, digest))
  }

  /** A turn that goes on has strictly more bytes, and still fewer than the limit. */
  lemma TurnAdvances(p: Progress, now: Moment, digest: Digest)
    requires OneTurn(p, now, digest).More?
    ensures var next := OneTurn(p, now, digest).progress; p.offset < next.offset < MAX_SIZE
  {
  }

  /** The outcome of the whole download from turn `i` on; it ends whatever the server answers. */
  function Load(env: Environment, digest: Digest, i: nat, p: Progress): Outcome
    decreases MAX_SIZE - p.offset
  {
    match OneTurn(p, env(i), digest)
    case Done(outcome) => outcome
    case More(next) =>
      TurnAdvances(p, env(i), digest);
      Load(env, digest, i + 1, next)
  }

  // ---------------------------------------------------------------- the loop

  method Assemble(chunks: seq<seq<Byte>>, offset: nat) returns (bytes: array<Byte>)
    requires |Concat(chunks)| == offset
    ensures fresh(bytes) && bytes[..] == Concat(chunks)
  {
    bytes := new Byte[offset];
    var cursor := 0;
    for k := 0 to |chunks|
      invariant cursor == |Concat(chunks[..k])| <= offset
      invariant bytes[..cursor] == Concat(chunks[..k])
    {
      ConcatPrefix(chunks, k);
      var part := chunks[k];
      for j := 0 to |part|
        invariant bytes[..cursor + j] == Concat(chunks[..k]) + part[..j]
      {
        bytes[cursor + j] := part[j];
      }
      cursor := cursor + |part|;
    }
    assert chunks[..|chunks|] == chunks;
  }

  lemma {:induction false} ConcatPrefix(chunks: seq<seq<Byte>>, k: nat)
    requires k < |chunks|
    ensures Concat(chunks[..k + 1]) == Concat(chunks[..k]) + chunks[k]
    ensures |Concat(chunks[..k + 1])| <= |Concat(chunks)|
    decreases |chunks|
  {
    assert chunks[..k + 1][..k] == chunks[..k];
    var n := |chunks| - 1;
    if k == n {
      assert chunks[..k + 1] == chunks;
    } else {
      ConcatPrefix(chunks[..n], k);
      assert chunks[..n][..k + 1] == chunks[..k + 1];
    }
  }

  ghost predicate Consistent(p: Progress) {
    |Concat(p.chunks)| == p.offset
  }

  lemma TakeIsConsistent(p: Progress, c: Chunk)
    requires Consistent(p) && Accepts(p, c)
    ensures Consistent(Take(p, c)) && Concat(Take(p, c).chunks) == Concat(p.chunks) + Bytes(c.data)
  {
    assert Take(p, c).chunks[..|p.chunks|] == p.chunks;
  }

  /** Downloads the image, asking at the offset reached so far; `requests` are the offsets asked for. */
  method LoadChangeImage(env: Environment, digest: Digest) returns (outcome: Outcome, requests: seq<nat>)
    ensures outcome == Load(env, digest, 0, START)
    ensures forall i, j | 0 <= i < j < |requests| :: requests[i] < requests[j]
    ensures forall i | 0 <= i < |requests| :: requests[i] < MAX_SIZE
  {
    requests := [];
    var i, p := 0, START;
    while env(i).validBefore
      invariant Load(env, digest, i, p) == Load(env, digest, 0, START)
      invariant Consistent(p) && p.offset < MAX_SIZE
      invariant forall j | 0 <= j < |requests| :: requests[j] < p.offset
      invariant forall j, k | 0 <= j < k < |requests| :: requests[j] < requests[k]
      decreases MAX_SIZE - p.offset
    {
      var now := env(i);
      if now.late {
        return TimedOut, requests;
      }
      requests := requests + [p.offset];
      if now.reply.Failed? {
        return RequestFailed, requests;
      }
      if !now.validAfter {
        return Cancelled, requests;
      }
      if now.reply.OtherKind? {
        return Unsupported, requests;
      }
      if now.reply.chunk == None {
        return if p.offset != 0 then Vanished else Absent, requests;
      }
      var chunk := now.reply.chunk.value;
      if !Accepts(p, chunk) {
        return Invalid, requests;
      }
      TakeIsConsistent(p, chunk);
      p := Take(p, chunk);
      if !chunk.hasMore {
        var bytes := Assemble(p.chunks, p.offset);
        if p.hash.Some? && p.hash.value != "" {
          var actual := digest(bytes[..]);
          if actual != p.hash.value {
            return WrongDigest, requests;
          }
        }
        if !now.validAtEnd {
          return Cancelled, requests;
        }
        return Image(bytes[..], p.mime), requests;
      }
      i := i + 1;
    }
    return Cancelled, requests;
  }

  // ---------------------------------------------------------------- what an image means

  /** Turn `i` of a download was answered with a chunk. */
  predicate Answered(env: Environment, i: nat) {
    env(i).reply.Preview? && env(i).reply.chunk.Some?
  }

  function ChunkAt(env: Environment, i: nat): Chunk
    requires Answered(env, i)
  {
    env(i).reply.chunk.value
  }

  /** Chunk `c` says the same about the image as the final progress `end`. */
  ghost predicate Agrees(c: Chunk, end: Progress) {
    c.size == end.size && c.version == end.version && c.mime == end.mime && c.hash == end.hash
  }

  /** Everything the chunks from turn `i` on contribute to an image. */
  ghost predicate Delivers(env: Environment, i: nat, n: nat, p: Progress, end: Progress) {
    && i < n
    && (forall k | i <= k < n :: Answered(env, k) && Agrees(ChunkAt(env, k), end))
    && (forall k | i <= k < n :: ChunkAt(env, k).hasMore == (k < n - 1))
    && (p.offset != 0 ==> p.size == end.size && p.version == end.version && p.mime == end.mime && p.hash == end.hash)
    && end.size == end.offset as real
    && Consistent(end)
  }

  /** The first turn of a download that ends with an image. */
  lemma FirstTurn(env: Environment, digest: Digest, i: nat, p: Progress)
    requires Load(env, digest, i, p).Image?
    ensures Answered(env, i) && Accepts(p, ChunkAt(env, i))
    ensures var c, next := ChunkAt(env, i), Take(p, ChunkAt(env, i));
      if c.hasMore then
        p.offset < next.offset < MAX_SIZE && Load(env, digest, i, p) == Load(env, digest, i + 1, next)
      else
        Genuine(next.hash, Concat(next.chunks), digest)
        && Load(env, digest, i, p) == Image(Concat(next.chunks), next.mime)
  {
    if OneTurn(p, env(i), digest).More? {
      TurnAdvances(p, env(i), digest);
    }
  }

  lemma LastDelivers(env: Environment, i: nat, p: Progress, c: Chunk)
    requires Answered(env, i) && c == ChunkAt(env, i) && Accepts(p, c) && !c.hasMore && Consistent(Take(p, c))
    ensures Delivers(env, i, i + 1, p, Take(p, c))
  {
  }

  lemma DeliversMore(env: Environment, i: nat, n: nat, p: Progress, c: Chunk, end: Progress)
    requires Answered(env, i) && c == ChunkAt(env, i) && Accepts(p, c) && c.hasMore
    requires Delivers(env, i + 1, n, Take(p, c), end)
    ensures Delivers(env, i, n, p, end)
  {
    assert Agrees(c, end);
  }

  /**
   * When an image comes back, all chunks agreed on size, version, type and hash, exactly the last said
   * there is no more, the bytes are as many as every chunk declared, and a hash that was sent is theirs.
   */
  lemma {:induction false} ImageIsConsistent(env: Environment, digest: Digest, i: nat, p: Progress)
    returns (n: nat, end: Progress)
    requires Load(env, digest, i, p).Image? && Consistent(p)
    ensures Delivers(env, i, n, p, end)
    ensures Load(env, digest, i, p) == Image(Concat(end.chunks), end.mime)
    ensures Genuine(end.hash, Concat(end.chunks), digest)
    ensures Concat(p.chunks) <= Concat(end.chunks)
    decreases MAX_SIZE - p.offset
  {
    FirstTurn(env, digest, i, p);
    var c := ChunkAt(env, i);
    var next := Take(p, c);
    TakeIsConsistent(p, c);
    if c.hasMore {
      n, end := ImageIsConsistent(env, digest, i + 1, next);
      DeliversMore(env, i, n, p, c, end);
    } else {
      n, end := i + 1, next;
      LastDelivers(env, i, p, c);
    }
  }

  // ---------------------------------------------------------------- honest servers

  /** A chunk that carries the bytes of `content` that end where it says the next one starts. */
  ghost predicate TrueSlice(c: Chunk, content: seq<Byte>) {
    && c.size == |content| as real
    && var end := c.next.Floor;
       |c.data| <= end <= |content|
       && forall j | 0 <= j < |c.data| :: c.data[j] == content[end - |c.data| + j] as real
  }

  lemma SliceBytes(data: seq<real>, content: seq<Byte>, from: nat)
    requires forall j | 0 <= j < |data| :: IsByte(data[j])
    requires from + |data| <= |content| && forall j | 0 <= j < |data| :: data[j] == content[from + j] as real
    ensures Bytes(data) == content[from..from + |data|]
  {
  }

  lemma PrefixAndSlice(content: seq<Byte>, from: nat, to: nat)
    requires from <= to <= |content|
    ensures content[..from] + content[from..to] == content[..to]
  {
  }

  lemma TakenSlice(p: Progress, c: Chunk, content: seq<Byte>)
    requires Consistent(p) && Accepts(p, c) && TrueSlice(c, content)
    requires p.offset <= |content| && Concat(p.chunks) == content[..p.offset]
    ensures var next := Take(p, c);
      next.offset <= |content| && Concat(next.chunks) == content[..next.offset] && next.offset as real == c.next
  {
    var end := p.offset + |c.data|;
    assert c.next.Floor == end;
    SliceBytes(c.data, content, p.offset);
    TakeIsConsistent(p, c);
    PrefixAndSlice(content, p.offset, end);
  }

  /** What arrived so far is the start of `content`. */
  ghost predicate Starts(p: Progress, content: seq<Byte>) {
    Consistent(p) && p.offset <= |content| && Concat(p.chunks) == content[..p.offset]
  }

  lemma TakenStarts(p: Progress, c: Chunk, content: seq<Byte>)
    requires Starts(p, content) && Accepts(p, c) && TrueSlice(c, content)
    ensures Starts(Take(p, c), content)
    ensures !c.hasMore ==> Concat(Take(p, c).chunks) == content
  {
    TakenSlice(p, c, content);
    TakeIsConsistent(p, c);
    assert content[..|content|] == content;
  }

  /** If every chunk the server sends is a true slice, an image that comes back is the content. */
  lemma {:induction false} TrueSlicesGiveTheContent(
    env: Environment, digest: Digest, i: nat, p: Progress, content: seq<Byte>)
    requires Load(env, digest, i, p).Image? && Consistent(p)
    requires p.offset <= |content| && Concat(p.chunks) == content[..p.offset]
    requires forall k: nat | Answered(env, k) :: TrueSlice(ChunkAt(env, k), content)
    ensures Load(env, digest, i, p).bytes == content
    decreases MAX_SIZE - p.offset
  {
    FirstTurn(env, digest, i, p);
    var c := ChunkAt(env, i);
    TakenStarts(p, c, content);
    if c.hasMore {
      TrueSlicesGiveTheContent(env, digest, i + 1, Take(p, c), content);
    }
  }

  /** A server that holds `content` and cuts it at `cuts`, asked by a view that stays valid and in time. */
  ghost predicate Serves(
    env: Environment, content: seq<Byte>, version: string, mime: string, hash: Option<string>, cuts: nat -> nat)
  {
    cuts(0) == 0 && forall i: nat | cuts(i) < |content| ::
      ServesAt(env, i, content, cuts(i), cuts(i + 1), version, mime, hash)
  }

  ghost predicate ServesAt(
    env: Environment, i: nat, content: seq<Byte>, from: nat, to: nat,
    version: string, mime: string, hash: Option<string>)
  {
    && env(i).validBefore && !env(i).late && env(i).validAfter && env(i).validAtEnd && Answered(env, i)
    && from < to <= |content| && to - from <= MAX_CHUNK
    && SliceChunk(ChunkAt(env, i), content, from, to, version, mime, hash)
  }

  ghost predicate SliceChunk(
    c: Chunk, content: seq<Byte>, from: nat, to: nat, version: string, mime: string, hash: Option<string>)
    requires from <= to <= |content|
  {
    && c.size == |content| as real && c.next == to as real && c.hasMore == (to < |content|)
    && c.version == version && c.mime == mime && c.hash == hash
    && |c.data| == to - from && forall j | 0 <= j < |c.data| :: c.data[j] == content[from + j] as real
  }

  lemma SliceIsAccepted(
    p: Progress, c: Chunk, content: seq<Byte>, to: nat, version: string, mime: string, hash: Option<string>)
    requires p.offset < to <= |content| <= MAX_SIZE && to - p.offset <= MAX_CHUNK
    requires SliceChunk(c, content, p.offset, to, version, mime, hash)
    requires version != "" && IsImageType(mime)
    requires p.offset != 0 ==> p.size == |content| as real && p.version == version && p.mime == mime && p.hash == hash
    ensures Accepts(p, c) && Bytes(c.data) == content[p.offset..to]
  {
    assert (|content| as real).Floor == |content|;
    forall j | 0 <= j < |c.data| ensures IsByte(c.data[j]) {
      assert (content[p.offset + j] as real).Floor == content[p.offset + j];
    }
    SliceBytes(c.data, content, p.offset);
  }

  /** One turn with an honest server goes on with the next prefix, or ends with the image. */
  lemma HonestTurn(
    env: Environment, digest: Digest, i: nat, p: Progress,
    content: seq<Byte>, to: nat, version: string, mime: string, hash: Option<string>) returns (next: Progress)
    requires ServesAt(env, i, content, p.offset, to, version, mime, hash)
    requires |content| <= MAX_SIZE && version != "" && IsImageType(mime) && Genuine(hash, content, digest)
    requires Consistent(p) && p.offset <= |content| && Concat(p.chunks) == content[..p.offset]
    requires p.offset != 0 ==> p.size == |content| as real && p.version == version && p.mime == mime && p.hash == hash
    ensures OneTurn(p, env(i), digest) == if to < |content| then More(next) else Done(Image(content, mime))
    ensures Consistent(next) && next.offset == to && Concat(next.chunks) == content[..to]
    ensures next.size == |content| as real && next.version == version && next.mime == mime && next.hash == hash
  {
    var c := ChunkAt(env, i);
    SliceIsAccepted(p, c, content, to, version, mime, hash);
    TakeIsConsistent(p, c);
    PrefixAndSlice(content, p.offset, to);
    assert content[..|content|] == content;
    next := Take(p, c);
  }

  /** From an honest server every image from one byte to the limit comes back whole. */
  lemma {:induction false} HonestServerDelivers(
    env: Environment, digest: Digest, i: nat, p: Progress,
    content: seq<Byte>, version: string, mime: string, hash: Option<string>, cuts: nat -> nat)
    requires Serves(env, content, version, mime, hash, cuts)
    requires 0 < |content| <= MAX_SIZE && version != "" && IsImageType(mime) && Genuine(hash, content, digest)
    requires Consistent(p) && p.offset == cuts(i) < |content| && Concat(p.chunks) == content[..p.offset]
    requires p.offset != 0 ==> p.size == |content| as real && p.version == version && p.mime == mime && p.hash == hash
    ensures Load(env, digest, i, p) == Image(content, mime)
    decreases |content| - p.offset
  {
    assert ServesAt(env, i, content, cuts(i), cuts(i + 1), version, mime, hash);
    var next := HonestTurn(env, digest, i, p, content, cuts(i + 1), version, mime, hash);
    if cuts(i + 1) < |content| {
      HonestServerDelivers(env, digest, i + 1, next, content, version, mime, hash, cuts);
    }
  }
}
