/** app/diff/chunker.py: files are packed greedily, in order, into chunks of bounded size. */
module Chunker {
  import opened Text
  import opened Parser

  /** A `ReviewChunk`: the files it holds. */
  type Chunk = seq<FileDiff>

  function Size(files: seq<FileDiff>): nat {
    if files == [] then 0 else Size(files[..|files| - 1]) + files[|files| - 1].ByteSize()
  }

  /** A part that may be a chunk: it fits the limit, or it is a single file. */
  predicate Allowed(part: Chunk, limit: int) {
    Size(part) <= limit || |part| == 1
  }

  /** An in-order contiguous split of `files` into allowed parts. */
  ghost predicate ValidSplit(parts: seq<Chunk>, files: seq<FileDiff>, limit: int) {
    Flatten(parts) == files && forall i :: 0 <= i < |parts| ==> Allowed(parts[i], limit)
  }

  /** The chunks still to be emitted when `current` is open and `rest` is to come. */
  function Greedy(current: Chunk, rest: seq<FileDiff>, limit: int): seq<Chunk>
    decreases |rest|
  {
    if rest == [] then (if current == [] then [] else [current])
    else
      var f, size := rest[0], rest[0].ByteSize();
      if current != [] && Size(current) + size > limit then
        [current] + (if size > limit then [[f]] + Greedy([], rest[1..], limit) else Greedy([f], rest[1..], limit))
      else if size > limit then [[f]] + Greedy([], rest[1..], limit)
      else Greedy(current + [f], rest[1..], limit)
  }

  function Chunks(files: seq<FileDiff>, limit: int): seq<Chunk> {
    Greedy([], files, limit)
  }

  // ---- Sizes -------------------------------------------------------------------------------

  lemma SizeSnoc(files: seq<FileDiff>, f: FileDiff)
    ensures Size(files + [f]) == Size(files) + f.ByteSize()
  {
    assert (files + [f])[..|files|] == files;
  }

  lemma {:induction false} SizeAppend(a: seq<FileDiff>, b: seq<FileDiff>)
    ensures Size(a + b) == Size(a) + Size(b)
    decreases |b|
  {
    if b == [] {
      assert a + b == a;
    } else {
      assert (a + b)[..|a + b| - 1] == a + b[..|b| - 1];
      SizeAppend(a, b[..|b| - 1]);
    }
  }

  // ---- The result is a valid split ---------------------------------------------------------

  ghost predicate NoneEmpty(parts: seq<Chunk>) {
    forall i :: 0 <= i < |parts| ==> parts[i] != []
  }

  lemma SplitCons(part: Chunk, parts: seq<Chunk>, files: seq<FileDiff>, limit: int)
    requires ValidSplit(parts, files, limit) && NoneEmpty(parts) && Allowed(part, limit) && part != []
    ensures ValidSplit([part] + parts, part + files, limit) && NoneEmpty([part] + parts)
  {
    hide Allowed;
    FlattenCons(part, parts);
  }

  lemma {:induction false} GreedyIsSplit(current: Chunk, rest: seq<FileDiff>, limit: int)
    requires current == [] || Allowed(current, limit)
    ensures ValidSplit(Greedy(current, rest, limit), current + rest, limit)
    ensures NoneEmpty(Greedy(current, rest, limit))
    decreases |rest|, if current == [] then 0 else 1, 1
  {
    hide *;
    if rest == [] {
      assert current + rest == current;
      SplitOfOne(current, limit);
    } else {
      GreedyIsSplitCons(current, rest, limit);
    }
  }

  lemma {:induction false} GreedyIsSplitCons(current: Chunk, rest: seq<FileDiff>, limit: int)
    requires rest != [] && (current == [] || Allowed(current, limit))
    ensures ValidSplit(Greedy(current, rest, limit), current + rest, limit)
    ensures NoneEmpty(Greedy(current, rest, limit))
    decreases |rest|, if current == [] then 0 else 1, 0
  {
    hide *;
    GreedyStep(current, rest, limit);
    var f, more := rest[0], rest[1..];
    assert rest == [f] + more && [] + rest == rest && [] + more == more;
    if current != [] && Size(current) + f.ByteSize() > limit {
      GreedyIsSplit([], rest, limit);
      SplitCons(current, Greedy([], rest, limit), rest, limit);
    } else if f.ByteSize() > limit {
      GreedyIsSplit([], more, limit);
      SplitCons([f], Greedy([], more, limit), more, limit);
      assert current + rest == [f] + more;
    } else {
      GreedyIsSplit(current + [f], more, limit);
      assert current + rest == current + [f] + more;
    }
  }

  lemma SplitOfOne(current: Chunk, limit: int)
    requires current == [] || Allowed(current, limit)
    ensures ValidSplit(Greedy(current, [], limit), current, limit) && NoneEmpty(Greedy(current, [], limit))
  {
    FlattenOne(current);
  }

  /** One file: the open chunk is closed first, the file stands alone, or it joins. */
  lemma GreedyStep(current: Chunk, rest: seq<FileDiff>, limit: int)
    requires rest != []
    ensures current != [] && Size(current) + rest[0].ByteSize() > limit ==>
              Greedy(current, rest, limit) == [current] + Greedy([], rest, limit)
    ensures current == [] && rest[0].ByteSize() > limit ==>
              Greedy(current, rest, limit) == [[rest[0]]] + Greedy([], rest[1..], limit)
    ensures !(current != [] && Size(current) + rest[0].ByteSize() > limit) && rest[0].ByteSize() <= limit ==>
              && Greedy(current, rest, limit) == Greedy(current + [rest[0]], rest[1..], limit)
              && Allowed(current + [rest[0]], limit)
    ensures current != [] && Size(current) + rest[0].ByteSize() <= limit ==> rest[0].ByteSize() <= limit
    ensures Allowed([rest[0]], limit)
  {
    hide FileDiff.ByteSize;
    SizeSnoc(current, rest[0]);
    assert [] + [rest[0]] == [rest[0]];
    assert Size([]) == 0;
  }

  lemma FlattenOne<T>(part: seq<T>)
    ensures Flatten([part]) == part
  {
    assert [part][1..] == [];
  }

  // ---- Greedy is optimal -------------------------------------------------------------------

  function Count(current: Chunk, rest: seq<FileDiff>, limit: int): nat {
    |Greedy(current, rest, limit)|
  }

  /** A shorter open chunk needs no more chunks, and at most one fewer. */
  lemma {:induction false} OpenChunkCost(dropped: seq<FileDiff>, kept: seq<FileDiff>, rest: seq<FileDiff>, limit: int)
    ensures Count(kept, rest, limit) <= Count(dropped + kept, rest, limit) <= Count(kept, rest, limit) + 1
    decreases |rest|
  {
    hide Text.Utf8Length;
    var current := dropped + kept;
    if rest != [] {
      var f, more := rest[0], rest[1..];
      SizeAppend(dropped, kept);
      if current != [] && Size(current) + f.ByteSize() > limit {
        if kept == [] || Size(kept) + f.ByteSize() <= limit {
          OpenChunkCost(kept, [f], more, limit);
          assert kept == [] ==> kept + [f] == [f];
        }
      } else {
        OpenChunkCost(dropped, kept + [f], more, limit);
        assert dropped + (kept + [f]) == current + [f];
        assert Size([]) == 0;
      }
    }
  }

  /** Files that fit together stay in the open chunk. */
  lemma {:induction false} PartStaysOpen(current: Chunk, part: Chunk, rest: seq<FileDiff>, limit: int)
    requires Size(current + part) <= limit
    ensures Greedy(current, part + rest, limit) == Greedy(current + part, rest, limit)
    decreases |part|
  {
    hide Text.Utf8Length;
    if part == [] {
      assert part + rest == rest && current + part == current;
    } else {
      var f := part[0];
      assert current + part == current + [f] + part[1..];
      SizeAppend(current + [f], part[1..]);
      SizeSnoc(current, f);
      assert (part + rest)[1..] == part[1..] + rest;
      PartStaysOpen(current + [f], part[1..], rest, limit);
    }
  }

  /** No allowed in-order split uses fewer chunks. */
  lemma {:induction false} GreedyIsOptimal(parts: seq<Chunk>, files: seq<FileDiff>, limit: int)
    requires ValidSplit(parts, files, limit)
    ensures |Chunks(files, limit)| <= |parts|
    decreases |parts|
  {
    hide Text.Utf8Length;
    if parts != [] {
      var part, rest := parts[0], Flatten(parts[1..]);
      assert files == part + rest;
      GreedyIsOptimal(parts[1..], rest, limit);
      assert Size([]) == 0;
      if Size(part) <= limit {
        assert [] + part == part;
        PartStaysOpen([], part, rest, limit);
        OpenChunkCost(part, [], rest, limit);
        assert part + [] == part;
      } else {
        assert part == [part[0]] && files[0] == part[0] && files[1..] == rest;
        SizeSnoc([], part[0]);
        assert [] + [part[0]] == part;
      }
    }
  }

  // ---- Greedy is the only split whose chunks are full ---------------------------------------

  /** The first file of each chunk but the first would not have fitted the one before it. */
  ghost predicate Full(parts: seq<Chunk>, limit: int)
    requires NoneEmpty(parts)
  {
    forall i :: 0 <= i < |parts| - 1 ==> Size(parts[i]) + parts[i + 1][0].ByteSize() > limit
  }

  lemma FirstOfSplit(parts: seq<Chunk>, files: seq<FileDiff>, limit: int)
    requires ValidSplit(parts, files, limit) && NoneEmpty(parts)
    ensures parts == [] <==> files == []
    ensures parts != [] ==> parts[0][0] == files[0]
  {
    hide Allowed;
  }

  lemma FullCons(part: Chunk, parts: seq<Chunk>, files: seq<FileDiff>, limit: int)
    requires ValidSplit(parts, files, limit) && NoneEmpty(parts) && Full(parts, limit) && part != []
    requires files != [] ==> Size(part) + files[0].ByteSize() > limit
    ensures NoneEmpty([part] + parts) && Full([part] + parts, limit)
  {
    FirstOfSplit(parts, files, limit);
    hide Size, FileDiff.ByteSize, ValidSplit;
  }

  lemma {:induction false} GreedyIsFull(current: Chunk, rest: seq<FileDiff>, limit: int)
    requires current == [] || Allowed(current, limit)
    ensures NoneEmpty(Greedy(current, rest, limit)) && Full(Greedy(current, rest, limit), limit)
    decreases |rest|, if current == [] then 0 else 1
  {
    hide Greedy, Size, FileDiff.ByteSize, ValidSplit, Allowed;
    GreedyIsSplit(current, rest, limit);
    if rest == [] {
      FewChunks(current, limit);
    } else {
      GreedyStep(current, rest, limit);
      var f, more := rest[0], rest[1..];
      assert [] + rest == rest && [] + more == more;
      if current != [] && Size(current) + f.ByteSize() > limit {
        GreedyIsFull([], rest, limit);
        GreedyIsSplit([], rest, limit);
        FullCons(current, Greedy([], rest, limit), rest, limit);
      } else if f.ByteSize() > limit {
        GreedyIsFull([], more, limit);
        GreedyIsSplit([], more, limit);
        SizeOfOne(f);
        FullCons([f], Greedy([], more, limit), more, limit);
      } else {
        GreedyIsFull(current + [f], more, limit);
      }
    }
  }

  lemma FewChunks(current: Chunk, limit: int)
    ensures |Greedy(current, [], limit)| <= 1
  {
  }

  lemma SizeOfOne(f: FileDiff)
    ensures Size([f]) == f.ByteSize()
  {
    SizeSnoc([], f);
    assert [] + [f] == [f];
  }

  /** The first part of a full split is the first chunk. */
  lemma FullHead(part: Chunk, rest: seq<FileDiff>, limit: int)
    requires part != [] && Allowed(part, limit) && (rest != [] ==> Size(part) + rest[0].ByteSize() > limit)
    ensures Greedy([], part + rest, limit) == [part] + Greedy([], rest, limit)
  {
    assert [] + part == part;
    if Size(part) <= limit {
      PartStaysOpen([], part, rest, limit);
      if rest != [] {
        hide Greedy, Size, FileDiff.ByteSize;
        GreedyStep(part, rest, limit);
      }
    } else {
      hide Greedy, Size, FileDiff.ByteSize;
      assert part == [part[0]] && (part + rest)[1..] == rest;
      SizeOfOne(part[0]);
      GreedyStep([], part + rest, limit);
    }
  }

  lemma {:induction false} FullIsGreedy(parts: seq<Chunk>, files: seq<FileDiff>, limit: int)
    requires ValidSplit(parts, files, limit) && NoneEmpty(parts) && Full(parts, limit)
    ensures parts == Chunks(files, limit)
    decreases |parts|
  {
    hide Size, FileDiff.ByteSize, Allowed;
    if parts != [] {
      var part, rest := parts[0], Flatten(parts[1..]);
      assert files == part + rest && parts == [part] + parts[1..];
      assert forall i :: 0 <= i < |parts| - 1 ==> parts[1..][i] == parts[i + 1];
      FirstOfSplit(parts[1..], rest, limit);
      FullHead(part, rest, limit);
      FullIsGreedy(parts[1..], rest, limit);
    }
  }

  /** Among all in-order splits into non-empty allowed chunks, the result is the one and only one in
      which no chunk could have taken the next file as well. */
  lemma OnlyFullSplit(parts: seq<Chunk>, files: seq<FileDiff>, limit: int)
    ensures parts == Chunks(files, limit) <==>
            ValidSplit(parts, files, limit) && NoneEmpty(parts) && Full(parts, limit)
  {
    hide Greedy, ValidSplit, Full;
    GreedyIsSplit([], files, limit);
    GreedyIsFull([], files, limit);
    assert [] + files == files;
    if ValidSplit(parts, files, limit) && NoneEmpty(parts) && Full(parts, limit) {
      FullIsGreedy(parts, files, limit);
    }
  }

  // ---- The loop ----------------------------------------------------------------------------

  /** `chunk_file_diffs`. The result loses no file and changes no order, has no empty chunk, keeps
      every chunk within the limit unless it is a single file, and is as short as any such split.
      Lines 31-34 of the source never run: a file over the limit was already flushed for. */
  method ChunkFileDiffs(files: seq<FileDiff>, maximumBytes: int) returns (chunks: seq<Chunk>)
    ensures chunks == Chunks(files, maximumBytes)
    ensures ValidSplit(chunks, files, maximumBytes)
    ensures NoneEmpty(chunks)
    ensures forall parts :: ValidSplit(parts, files, maximumBytes) ==> |chunks| <= |parts|
  {
    hide Text.Utf8Length;
    chunks := [];
    var current: Chunk := [];
    var currentSize := 0;
    for k := 0 to |files|
      invariant currentSize == Size(current)
      invariant chunks + Greedy(current, files[k..], maximumBytes) == Chunks(files, maximumBytes)
    {
      var fileDiff := files[k];
      assert files[k..][0] == fileDiff && files[k..][1..] == files[k + 1..];
      SizeSnoc(current, fileDiff);
      SizeSnoc([], fileDiff);
      assert [] + [fileDiff] == [fileDiff];
      var size := fileDiff.ByteSize();
      if current != [] && currentSize + size > maximumBytes {
        chunks := chunks + [current];
        current := [];
        currentSize := 0;
      }
      if size > maximumBytes {
        if current != [] {
          assert false;
        }
        chunks := chunks + [[fileDiff]];
        continue;
      }
      current := current + [fileDiff];
      currentSize := currentSize + size;
    }
    if current != [] {
      chunks := chunks + [current];
    }
    GreedyIsSplit([], files, maximumBytes);
    assert [] + files == files;
    forall parts | ValidSplit(parts, files, maximumBytes) ensures |chunks| <= |parts| {
      GreedyIsOptimal(parts, files, maximumBytes);
    }
  }
}
