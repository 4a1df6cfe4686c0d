/**
 Bounds on provider responses: the reader that never keeps more than its limits and always
 closes the stream, and the structural bounds of a JSON value, checked with an explicit stack.
 */
module ResponseBounds {
  import opened Basics

  // --- structural bounds ---

  /** A parsed JSON value; the keys of an object do not matter here. */
  datatype Json = Leaf | List(items: seq<Json>) | Dict(values: seq<Json>)

  const MAX_DEPTH := 32
  const MAX_COUNT := 100_000

  function Children(v: Json): seq<Json> {
    match v
    case Leaf => []
    case List(items) => items
    case Dict(values) => values
  }

  function Depth(v: Json): nat {
    match v
    case Leaf => 1
    case List(items) => 1 + Deepest(items)
    case Dict(values) => 1 + Deepest(values)
  }

  function Deepest(s: seq<Json>): nat {
    if s == [] then 0 else
      var rest := Deepest(s[..|s| - 1]);
      var last := Depth(s[|s| - 1]);
      if last > rest then last else rest
  }

  function Count(v: Json): nat {
    match v
    case Leaf => 1
    case List(items) => 1 + CountAll(items)
    case Dict(values) => 1 + CountAll(values)
  }

  function CountAll(s: seq<Json>): nat {
    if s == [] then 0 else CountAll(s[..|s| - 1]) + Count(s[|s| - 1])
  }

  datatype Entry = Entry(item: Json, depth: nat)

  /** The nodes that are still to be counted. */
  function Pending(stack: seq<Entry>): nat {
    if stack == [] then 0 else Pending(stack[..|stack| - 1]) + Count(stack[|stack| - 1].item)
  }

  predicate Shallow(e: Entry) { e.depth + Depth(e.item) <= MAX_DEPTH + 1 }

  predicate AllShallow(stack: seq<Entry>) { forall e | e in stack :: Shallow(e) }

  function Entries(s: seq<Json>, depth: nat): (r: seq<Entry>)
    ensures |r| == |s| && forall k | 0 <= k < |s| :: r[k] == Entry(s[k], depth)
  {
    seq(|s|, k requires 0 <= k < |s| => Entry(s[k], depth))
  }

  lemma {:induction false} PushedCount(stack: seq<Entry>, s: seq<Json>, depth: nat)
    ensures Pending(stack + Entries(s, depth)) == Pending(stack) + CountAll(s)
    decreases |s|
  {
    if s == [] {
      assert stack + Entries(s, depth) == stack;
    } else {
      var front := s[..|s| - 1];
      PushedCount(stack, front, depth);
      var all := stack + Entries(s, depth);
      assert all[..|all| - 1] == stack + Entries(front, depth);
    }
  }

  lemma {:induction false} DeepestIsMost(s: seq<Json>, bound: nat)
    ensures Deepest(s) <= bound <==> forall j | j in s :: Depth(j) <= bound
    decreases |s|
  {
    if s != [] {
      DeepestIsMost(s[..|s| - 1], bound);
      assert forall j | j in s :: j in s[..|s| - 1] || j == s[|s| - 1];
      assert s[|s| - 1] in s;
    }
  }

  /** A node is shallow enough exactly when it is itself, and its children one level down are. */
  lemma ShallowChildren(e: Entry)
    ensures Shallow(e) <==> e.depth <= MAX_DEPTH && AllShallow(Entries(Children(e.item), e.depth + 1))
  {
    var c := Children(e.item);
    var entries := Entries(c, e.depth + 1);
    assert Depth(e.item) == 1 + Deepest(c);
    if e.depth <= MAX_DEPTH {
      DeepestIsMost(c, MAX_DEPTH - e.depth);
      forall k | 0 <= k < |c|
        ensures Shallow(entries[k]) <==> Depth(c[k]) <= MAX_DEPTH - e.depth
      {
      }
      assert AllShallow(entries) <==> forall k | 0 <= k < |c| :: Shallow(entries[k]);
      assert (forall j | j in c :: Depth(j) <= MAX_DEPTH - e.depth) <==> forall k | 0 <= k < |c| :: Depth(c[k]) <= MAX_DEPTH - e.depth;
    }
  }

  /** The stack is shallow exactly when the top is, and what is left once its children replace it. */
  lemma Popped(stack: seq<Entry>)
    requires stack != []
    ensures var top, rest := stack[|stack| - 1], stack[..|stack| - 1];
      && Pending(stack) == Pending(rest) + 1 + CountAll(Children(top.item))
      && (AllShallow(stack) <==> top.depth <= MAX_DEPTH && AllShallow(rest + Entries(Children(top.item), top.depth + 1)))
  {
    var top, rest := stack[|stack| - 1], stack[..|stack| - 1];
    var children := Entries(Children(top.item), top.depth + 1);
    ShallowChildren(top);
    assert Count(top.item) == 1 + CountAll(Children(top.item));
    hide Shallow, Children, Entries;
    assert AllShallow(stack) <==> AllShallow(rest) && Shallow(top) by {
      assert stack == rest + [top];
    }
    assert AllShallow(rest + children) <==> AllShallow(rest) && AllShallow(children);
  }

  lemma WholeValue(value: Json)
    ensures Pending([Entry(value, 1)]) == Count(value)
    ensures AllShallow([Entry(value, 1)]) <==> Depth(value) <= MAX_DEPTH
  {
    var stack := [Entry(value, 1)];
    assert stack[..0] == [] && stack[0] in stack;
  }

  /** `_json_within_bounds`: true exactly when depth and node count, taken recursively, fit. */
  method JsonWithinBounds(value: Json) returns (ok: bool)
    ensures ok <==> Depth(value) <= 32 && Count(value) <= 100_000
  {
    var stack, count := [Entry(value, 1)], 0;
    WholeValue(value);
    hide Shallow, Entries, Depth, Count, CountAll;
    while stack != []
      invariant count + Pending(stack) == Count(value) && count <= MAX_COUNT
      invariant AllShallow(stack) <==> Depth(value) <= MAX_DEPTH
      decreases Pending(stack)
    {
      var top, rest := stack[|stack| - 1], stack[..|stack| - 1];
      Popped(stack);
      count := count + 1;
      if top.depth > MAX_DEPTH || count > MAX_COUNT {
        return false;
      }
      var children := Entries(Children(top.item), top.depth + 1);
      PushedCount(rest, Children(top.item), top.depth + 1);
      stack := rest + children;
    }
    ok := true;
  }

  // --- the bounded reader ---

  datatype Limits = Limits(maxBytes: nat, maxChunks: nat, maxRatio: real, maxDuration: real)

  datatype Pull = Chunk(bytes: seq<byte>) | End | Broken

  datatype Reason = TooLarge | ChunkLimit | LengthMismatch | CompressionRatio | Duration | StreamFailed
  datatype Result = Ok(body: seq<byte>) | Err(reason: Reason)

  /** The first `n` chunks joined; anything that is not a chunk counts as nothing. */
  function Joined(script: nat -> Pull, n: nat): seq<byte> {
    if n == 0 then [] else Joined(script, n - 1) + if script(n - 1).Chunk? then script(n - 1).bytes else []
  }

  predicate RatioOk(limits: Limits, total: nat, compressed: Option<int>) {
    compressed.Some? ==> compressed.value > 0 && total as real / compressed.value as real <= limits.maxRatio
  }

  /** The stream ends after `n` chunks and everything about it is within the limits. */
  ghost predicate Acceptable(limits: Limits, script: nat -> Pull, declared: Option<int>, compressed: Option<int>, elapsed: real, n: nat) {
    && n <= limits.maxChunks && script(n) == End && (forall k: nat | k < n :: script(k).Chunk?)
    && |Joined(script, n)| <= limits.maxBytes
    && (declared.Some? ==> declared.value == |Joined(script, n)|)
    && RatioOk(limits, |Joined(script, n)|, compressed) && elapsed <= limits.maxDuration
  }

  lemma {:induction false} JoinedGrows(script: nat -> Pull, m: nat, n: nat)
    requires m <= n
    ensures |Joined(script, m)| <= |Joined(script, n)|
    decreases n
  {
    if m < n {
      JoinedGrows(script, m, n - 1);
    }
  }

  /** A stream of any length, even endless; what it yields is fixed in advance but unknown. */
  class ByteStream {
    const script: nat -> Pull
    const declared: Option<int>
    const compressed: Option<int>
    var pulled: nat
    var closed: nat

    constructor (script: nat -> Pull, declared: Option<int>, compressed: Option<int>)
      ensures this.script == script && this.declared == declared && this.compressed == compressed
      ensures pulled == 0 && closed == 0
    {
      this.script, this.declared, this.compressed := script, declared, compressed;
      pulled, closed := 0, 0;
    }

    method Next() returns (p: Pull)
      modifies this`pulled
      ensures p == script(old(pulled)) && pulled == old(pulled) + 1
    {
      p := script(pulled);
      pulled := pulled + 1;
    }

    method Close()
      modifies this`closed
      ensures closed == old(closed) + 1
    {
      closed := closed + 1;
    }
  }

  /**
     `BoundedResponseReader.read`; `elapsed` is what the two clock readings give.  The stream is read
     up to its end, or to the first thing about it that is refused; each refusal has its own reason.
   */
  method Read(stream: ByteStream, limits: Limits, elapsed: real) returns (r: Result)
    requires stream.pulled == 0
    modifies stream
    ensures stream.closed == old(stream.closed) + 1
    ensures stream.pulled <= limits.maxChunks + 1
    ensures r.Ok? ==> |r.body| <= limits.maxBytes
    ensures r.Ok? <==> exists n: nat :: Acceptable(limits, stream.script, stream.declared, stream.compressed, elapsed, n)
    ensures r.Ok? ==>
      && stream.pulled > 0 && r.body == Joined(stream.script, stream.pulled - 1)
      && Acceptable(limits, stream.script, stream.declared, stream.compressed, elapsed, stream.pulled - 1)
    ensures forall k: nat | k + 1 < stream.pulled :: stream.script(k).Chunk?
    ensures r == Err(TooLarge) ==>
      || (stream.pulled == 0 && stream.declared.Some? && stream.declared.value > limits.maxBytes)
      || (stream.pulled > 0 && |Joined(stream.script, stream.pulled)| > limits.maxBytes >= |Joined(stream.script, stream.pulled - 1)|)
    ensures r == Err(ChunkLimit) ==> stream.pulled == limits.maxChunks + 1 && stream.script(limits.maxChunks).Chunk?
    ensures r == Err(StreamFailed) ==> stream.pulled > 0 && stream.script(stream.pulled - 1) == Broken
    ensures r.Ok? || r.reason in {LengthMismatch, CompressionRatio, Duration} ==>
      stream.pulled > 0 && stream.script(stream.pulled - 1) == End
    ensures r.Ok? || r.reason in {LengthMismatch, CompressionRatio, Duration} ==>
      var total, compressed := |Joined(stream.script, stream.pulled - 1)|, stream.compressed;
      var lengthOk := stream.declared.None? || stream.declared.value == total;
      var ratioOk := compressed.None? || (compressed.value > 0 && total as real / compressed.value as real <= limits.maxRatio);
      r == if !lengthOk then Err(LengthMismatch)
           else if !ratioOk then Err(CompressionRatio)
           else if elapsed > limits.maxDuration then Err(Duration)
           else Ok(Joined(stream.script, stream.pulled - 1))
  {
    r := ReadChunks(stream, limits);
    if r.Ok? {
      var total := |r.body|;
      if stream.declared.Some? && stream.declared.value != total {
        r := Err(LengthMismatch);
      } else if !RatioOk(limits, total, stream.compressed) {
        r := Err(CompressionRatio);
      } else if elapsed > limits.maxDuration {
        r := Err(Duration);
      } else {
        assert Acceptable(limits, stream.script, stream.declared, stream.compressed, elapsed, stream.pulled - 1);
      }
    }
    stream.Close();
  }

  /** The loop of `read`: it keeps no more than the limits allow, whatever the stream does. */
  method ReadChunks(stream: ByteStream, limits: Limits) returns (r: Result)
    requires stream.pulled == 0
    modifies stream`pulled
    ensures stream.pulled <= limits.maxChunks + 1
    ensures r.Ok? ==>
      && stream.pulled > 0 && r.body == Joined(stream.script, stream.pulled - 1) && |r.body| <= limits.maxBytes
      && stream.pulled - 1 <= limits.maxChunks && stream.script(stream.pulled - 1) == End
      && forall k: nat | k < stream.pulled - 1 :: stream.script(k).Chunk?
    ensures forall k: nat | k + 1 < stream.pulled :: stream.script(k).Chunk?
    ensures r.Err? ==> r.reason in {TooLarge, ChunkLimit, StreamFailed}
    ensures r == Err(TooLarge) ==>
      || (stream.pulled == 0 && stream.declared.Some? && stream.declared.value > limits.maxBytes)
      || (stream.pulled > 0 && |Joined(stream.script, stream.pulled)| > limits.maxBytes >= |Joined(stream.script, stream.pulled - 1)|)
    ensures r == Err(ChunkLimit) ==> stream.pulled == limits.maxChunks + 1 && stream.script(limits.maxChunks).Chunk?
    ensures r == Err(StreamFailed) ==> stream.pulled > 0 && stream.script(stream.pulled - 1) == Broken
    ensures r.Err? ==> forall n: nat, e: real :: !Acceptable(limits, stream.script, stream.declared, stream.compressed, e, n)
    ensures r.Ok? ==> forall n: nat, e: real ::
      Acceptable(limits, stream.script, stream.declared, stream.compressed, e, n) ==> n == stream.pulled - 1
  {
    var script := stream.script;
    if stream.declared.Some? && stream.declared.value > limits.maxBytes {
      return Err(TooLarge);
    }
    var kept: seq<byte> := [];
    var count := 0;
    while true
      invariant stream.pulled == count <= limits.maxChunks
      invariant kept == Joined(script, count) && |kept| <= limits.maxBytes
      invariant forall k: nat | k < count :: script(k).Chunk?
      decreases limits.maxChunks - count
    {
      var p := stream.Next();
      assert p == script(count);
      if p == End {
        return Ok(kept);
      }
      if p == Broken {
        return Err(StreamFailed);
      }
      count := count + 1;
      if count > limits.maxChunks {
        return Err(ChunkLimit);
      }
      if |kept| + |p.bytes| > limits.maxBytes {
        forall n: nat, e: real | Acceptable(limits, script, stream.declared, stream.compressed, e, n)
          ensures false
        {
          assert n >= count;
          JoinedGrows(script, count, n);
        }
        return Err(TooLarge);
      }
      kept := kept + p.bytes;
    }
  }
}
