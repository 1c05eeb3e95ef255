/** Splitting the names of omitted findings into bounded diagnostic messages
    (backlog-curation-packets.ts, chunkTerminalOmissionNames). */
module NameChunks {
  import opened Text

  const PREFIX := "Protected terminal findings omitted by reducer byte caps: "
  const MESSAGE_MAX := 800

  function Message(chunk: seq<string>): string {
    PREFIX + Join(chunk, ", ") + "."
  }

  /** Length of the message that names a chunk. */
  function MessageLength(chunk: seq<string>): (n: nat)
    ensures chunk == [] ==> n <= MESSAGE_MAX
  {
    |PREFIX| + TotalLength(chunk) + (if chunk == [] then 0 else 2 * (|chunk| - 1)) + 1
  }

  predicate Fits(chunk: seq<string>) {
    MessageLength(chunk) <= MESSAGE_MAX
  }

  function Flatten(chunks: seq<seq<string>>): seq<string> {
    if chunks == [] then [] else chunks[0] + Flatten(chunks[1..])
  }

  lemma {:induction false} FlattenAppend(a: seq<seq<string>>, b: seq<seq<string>>)
    ensures Flatten(a + b) == Flatten(a) + Flatten(b)
  {
    if a == [] {
      assert a + b == b;
    } else {
      assert (a + b)[1..] == a[1..] + b;
      FlattenAppend(a[1..], b);
    }
  }

  /** An order-preserving partition of the names into messages within the limit. */
  ghost predicate IsPartition(chunks: seq<seq<string>>, names: seq<string>) {
    && Flatten(chunks) == names
    && forall i :: 0 <= i < |chunks| ==> chunks[i] != [] && Fits(chunks[i])
  }

  lemma PartitionCons(first: seq<string>, rest: seq<seq<string>>, names: seq<string>)
    requires first != [] && Fits(first) && IsPartition(rest, names)
    ensures IsPartition([first] + rest, first + names)
  {
    var chunks := [first] + rest;
    assert chunks[1..] == rest;
    forall i | 0 <= i < |chunks|
      ensures chunks[i] != [] && Fits(chunks[i])
    {
      assert i > 0 ==> chunks[i] == rest[i - 1];
    }
  }

  // ---- Message lengths ----

  function TotalLength(names: seq<string>): nat {
    if names == [] then 0 else |names[0]| + TotalLength(names[1..])
  }

  lemma {:induction false} TotalLengthAppend(a: seq<string>, b: seq<string>)
    ensures TotalLength(a + b) == TotalLength(a) + TotalLength(b)
  {
    if a == [] {
      assert a + b == b;
    } else {
      assert (a + b)[1..] == a[1..] + b;
      TotalLengthAppend(a[1..], b);
    }
  }

  lemma {:induction false} JoinLength(names: seq<string>)
    ensures |Join(names, ", ")| == TotalLength(names) + (if names == [] then 0 else 2 * (|names| - 1))
  {
    if |names| > 1 {
      JoinLength(names[1..]);
    }
  }

  lemma MessageLengthIs(chunk: seq<string>)
    ensures |Message(chunk)| == MessageLength(chunk)
  {
    JoinLength(chunk);
  }

  /** A contiguous part of a list that fits in one message fits too. */
  lemma PartFits(chunk: seq<string>, from: nat, to: nat)
    requires from <= to <= |chunk| && Fits(chunk)
    ensures Fits(chunk[from..to])
  {
    var part := chunk[from..to];
    assert chunk == chunk[..from] + (part + chunk[to..]);
    TotalLengthAppend(chunk[..from], part + chunk[to..]);
    TotalLengthAppend(part, chunk[to..]);
  }

  // ---- The greedy partition ----

  /** Length of the longest fitting prefix, extended one name at a time. */
  function Longest(names: seq<string>, k: nat): (j: nat)
    requires k <= |names| && Fits(names[..k])
    ensures k <= j <= |names| && Fits(names[..j])
    ensures j < |names| ==> !Fits(names[..j + 1])
    decreases |names| - k
  {
    if k < |names| && Fits(names[..k + 1]) then Longest(names, k + 1) else k
  }

  lemma FrontFits(names: seq<string>, i: nat, j: nat)
    requires i <= j <= |names| && Fits(names[..j])
    ensures Fits(names[..i])
  {
    PartFits(names[..j], 0, i);
    assert names[..j][0..i] == names[..i];
  }

  lemma LongestIs(names: seq<string>, j: nat)
    requires j <= |names| && Fits(names[..j]) && (j < |names| ==> !Fits(names[..j + 1]))
    requires Fits(names[..0])
    ensures Longest(names, 0) == j
  {
    hide *;
    var found := Longest(names, 0);
    if found < j {
      FrontFits(names, found + 1, j);
    } else if j < found {
      FrontFits(names, j + 1, found);
    }
  }

  /** Fill each message as far as it goes; None when a single name is too long. */
  function GreedyChunks(names: seq<string>): Option<seq<seq<string>>>
    decreases |names|
  {
    if names == [] then Some([])
    else
      var k := Longest(names, 0);
      if k == 0 then None
      else match GreedyChunks(names[k..])
        case None => None
        case Some(rest) => Some([names[..k]] + rest)
  }

  function Prepend(chunks: seq<seq<string>>, rest: Option<seq<seq<string>>>): Option<seq<seq<string>>> {
    match rest case None => None case Some(more) => Some(if chunks == [] then more else chunks + more)
  }

  /** What chunkTerminalOmissionNames returns. */
  function Chunk(names: seq<string>, slots: int): Option<seq<seq<string>>> {
    if slots <= 0 then None
    else match GreedyChunks(names)
      case None => None
      case Some(chunks) => if |chunks| <= slots then Some(chunks) else None
  }

  lemma {:induction false} GreedyIsPartition(names: seq<string>)
    requires GreedyChunks(names).Some?
    ensures IsPartition(GreedyChunks(names).value, names)
    decreases |names|
  {
    if names != [] {
      var k := Longest(names, 0);
      GreedyIsPartition(names[k..]);
      PartitionCons(names[..k], GreedyChunks(names[k..]).value, names[k..]);
      assert names[..k] + names[k..] == names;
    }
  }

  /** Dropping names from the front of a partition needs no more messages. */
  lemma {:induction false} DropFront(chunks: seq<seq<string>>, names: seq<string>, d: nat) returns (fewer: seq<seq<string>>)
    requires IsPartition(chunks, names) && d <= |names|
    ensures IsPartition(fewer, names[d..]) && |fewer| <= |chunks|
  {
    if chunks == [] || d == 0 {
      fewer := chunks;
      assert names[d..] == names;
    } else {
      var first := chunks[0];
      assert IsPartition(chunks[1..], names[|first|..]);
      if d < |first| {
        PartFits(first, d, |first|);
        assert first[d..|first|] == first[d..];
        fewer := [first[d..]] + chunks[1..];
        assert fewer[1..] == chunks[1..];
        assert names[d..] == first[d..] + names[|first|..];
      } else {
        fewer := DropFront(chunks[1..], names[|first|..], d - |first|);
        assert names[|first|..][d - |first|..] == names[d..];
      }
    }
  }

  /** No partition uses fewer messages than the greedy one. */
  lemma {:induction false} GreedyIsOptimal(names: seq<string>, chunks: seq<seq<string>>)
    requires IsPartition(chunks, names)
    ensures GreedyChunks(names).Some? && |GreedyChunks(names).value| <= |chunks|
    decreases |names|
  {
    if names != [] {
      var first := chunks[0];
      var k := Longest(names, 0);
      assert names[..|first|] == first;
      if k < |first| {
        FrontFits(names, k + 1, |first|);
      }
      assert IsPartition(chunks[1..], names[|first|..]);
      var fewer := DropFront(chunks[1..], names[|first|..], k - |first|);
      assert names[|first|..][k - |first|..] == names[k..];
      GreedyIsOptimal(names[k..], fewer);
    }
  }

  /** Chunking is sound, and it gives up exactly when no partition into the
      available number of messages exists. */
  lemma ChunkIsExact(names: seq<string>, slots: int)
    requires names != []
    ensures Chunk(names, slots).Some? ==>
              IsPartition(Chunk(names, slots).value, names) && |Chunk(names, slots).value| <= slots
    ensures Chunk(names, slots).Some? <==> exists chunks :: IsPartition(chunks, names) && |chunks| <= slots
  {
    if Chunk(names, slots).Some? {
      GreedyIsPartition(names);
    }
    forall chunks | IsPartition(chunks, names) && |chunks| <= slots
      ensures Chunk(names, slots).Some?
    {
      GreedyIsOptimal(names, chunks);
      assert chunks != [];
    }
  }

  /** A longer list needs at least as many messages as any of its suffixes. */
  lemma SuffixNeedsNoMore(names: seq<string>, d: nat)
    requires d <= |names| && GreedyChunks(names).Some?
    ensures GreedyChunks(names[d..]).Some? && |GreedyChunks(names[d..]).value| <= |GreedyChunks(names).value|
  {
    GreedyIsPartition(names);
    var fewer := DropFront(GreedyChunks(names).value, names, d);
    GreedyIsOptimal(names[d..], fewer);
  }

  // ---- The loop ----

  /** A message is closed when the next name no longer fits. */
  lemma CloseMessage(current: seq<string>, rest: seq<string>)
    requires current != [] && Fits(current) && (rest != [] ==> !Fits(current + [rest[0]]))
    ensures GreedyChunks(current + rest) == Prepend([current], GreedyChunks(rest))
  {
    var names := current + rest;
    assert names[..|current|] == current && names[|current|..] == rest;
    if rest != [] {
      assert names[..|current| + 1] == current + [rest[0]];
    }
    LongestIs(names, |current|);
  }

  lemma NameTooLong(rest: seq<string>)
    requires rest != [] && !Fits([rest[0]])
    ensures GreedyChunks(rest) == None
  {
    assert rest[..1] == [rest[0]];
    LongestIs(rest, 0);
  }

  /** The loop's state: finished messages, the open one, and the names to come. */
  ghost predicate Pending(names: seq<string>, chunks: seq<seq<string>>, open: seq<string>, rest: seq<string>) {
    GreedyChunks(names) == Prepend(chunks, GreedyChunks(open + rest))
  }

  lemma PendingGrow(names: seq<string>, chunks: seq<seq<string>>, open: seq<string>, rest: seq<string>)
    requires Pending(names, chunks, open, rest) && rest != []
    ensures Pending(names, chunks, open + [rest[0]], rest[1..])
  {
    assert open + [rest[0]] + rest[1..] == open + rest;
  }

  lemma PendingClose(names: seq<string>, chunks: seq<seq<string>>, open: seq<string>, rest: seq<string>)
    requires Pending(names, chunks, open, rest) && open != [] && Fits(open)
    requires rest != [] ==> !Fits(open + [rest[0]])
    ensures Pending(names, chunks + [open], [], rest)
  {
    CloseMessage(open, rest);
    assert [] + rest == rest;
    var tail := GreedyChunks(rest);
    if tail.Some? {
      assert chunks == [] ==> chunks + [open] == [open];
      assert chunks + ([open] + tail.value) == chunks + [open] + tail.value;
    }
  }

  lemma PendingTooLong(names: seq<string>, chunks: seq<seq<string>>, rest: seq<string>)
    requires Pending(names, chunks, [], rest) && rest != [] && !Fits([rest[0]])
    ensures GreedyChunks(names) == None
  {
    NameTooLong(rest);
    assert [] + rest == rest;
  }

  lemma PendingFull(names: seq<string>, chunks: seq<seq<string>>, open: seq<string>, rest: seq<string>, slots: int)
    requires Pending(names, chunks, open, rest) && open + rest != [] && |chunks| >= slots
    ensures Chunk(names, slots) == None
  {
  }

  lemma PendingDone(names: seq<string>, chunks: seq<seq<string>>)
    requires Pending(names, chunks, [], [])
    ensures GreedyChunks(names) == Some(chunks)
  {
    var none: seq<string> := [];
    assert none + none == none;
    assert chunks + [] == chunks;
  }

  method MeasureMessage(chunk: seq<string>) returns (length: nat)
    ensures length == MessageLength(chunk)
  {
    MessageLengthIs(chunk);
    length := |Message(chunk)|;
  }

  method ChunkNames(names: seq<string>, slots: int) returns (result: Option<seq<seq<string>>>)
    ensures result == Chunk(names, slots)
  {
    if slots <= 0 {
      return None;
    }
    var chunks: seq<seq<string>> := [];
    var current: seq<string> := [];
    assert [] + names == names;
    for i := 0 to |names|
      invariant Fits(current) && |chunks| <= slots
      invariant Pending(names, chunks, current, names[i..])
    {
      var name := names[i];
      assert names[i..][0] == name && names[i..][1..] == names[i + 1..];
      var length := MeasureMessage(current + [name]);
      if length <= MESSAGE_MAX {
        PendingGrow(names, chunks, current, names[i..]);
        current := current + [name];
      } else {
        if current == [] {
          assert current + [name] == [name];
          PendingTooLong(names, chunks, names[i..]);
          return None;
        }
        if |chunks| >= slots {
          PendingFull(names, chunks, current, names[i..], slots);
          return None;
        }
        PendingClose(names, chunks, current, names[i..]);
        chunks := chunks + [current];
        current := [name];
        length := MeasureMessage([name]);
        if length > MESSAGE_MAX {
          PendingTooLong(names, chunks, names[i..]);
          return None;
        }
        PendingGrow(names, chunks, [], names[i..]);
        assert [] + [name] == [name];
      }
    }
    if current != [] {
      PendingClose(names, chunks, current, []);
      chunks := chunks + [current];
    }
    PendingDone(names, chunks);
    result := if |chunks| <= slots then Some(chunks) else None;
  }
}
