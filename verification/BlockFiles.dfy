/** Where blocks are stored on disk: positions in numbered files that are filled
    one after the other, and which files may be deleted to stay under a limit. */
module BlockFiles {
  datatype Info = Info(
    blocks: nat,
    heightFirst: int, heightLast: int,
    timeFirst: int, timeLast: int,
    size: nat, undoSize: nat)

  const EMPTY := Info(0, 0, 0, 0, 0, 0, 0)

  const BLOCK_CHUNK := 0x100_0000
  const UNDO_CHUNK := 0x10_0000
  const MIN_BLOCKS_TO_KEEP := 288
  const OFFSETS := 0x1_0000_0000   // positions are 32-bit numbers

  // The statistics of a file with one more block, without its size.
  function WithBlock(i: Info, height: int, time: int): Info {
    Info(i.blocks + 1,
         if i.blocks == 0 || i.heightFirst > height then height else i.heightFirst,
         if height > i.heightLast then height else i.heightLast,
         if i.blocks == 0 || i.timeFirst > time then time else i.timeFirst,
         if time > i.timeLast then time else i.timeLast,
         i.size, i.undoSize)
  }

  function WithNewBlock(i: Info, height: int, time: int, add: nat): Info {
    WithBlock(i, height, time).(size := i.size + add)
  }

  predicate HasRoom(i: Info, add: nat, preferred: nat) { i.size == 0 || i.size + add < preferred }

  // The first file from f on that has room; a file not yet there is empty.
  function Chosen(files: seq<Info>, f: nat, add: nat, preferred: nat): (r: nat)
    ensures f <= r && (f <= |files| ==> r <= |files|)
    ensures forall k :: f <= k < r ==> k < |files| && !HasRoom(files[k], add, preferred)
    ensures r < |files| ==> HasRoom(files[r], add, preferred)
    decreases |files| - f
  { if f >= |files| || HasRoom(files[f], add, preferred) then f else Chosen(files, f + 1, add, preferred) }

  function Chunks(size: nat, chunk: nat): nat
    requires chunk > 0
  { (size + chunk - 1) / chunk }

  // The chunks below a position, counted in 32 bits: close to 4 GiB the sum wraps
  // and none are counted.
  function OldChunks(pos: nat): nat { (pos + BLOCK_CHUNK - 1) % OFFSETS / BLOCK_CHUNK }

  // A block in a file.
  datatype Range = Range(file: nat, start: nat, size: nat, height: int)

  // Blocks lie inside their files, and their heights are covered.
  ghost predicate Inside(files: seq<Info>, stored: seq<Range>) {
    forall i :: 0 <= i < |stored| ==>
      && stored[i].file < |files|
      && stored[i].start + stored[i].size <= files[stored[i].file].size
      && stored[i].height <= files[stored[i].file].heightLast
  }

  // Blocks of one file do not overlap: each begins after those before it end.
  ghost predicate Apart(stored: seq<Range>) {
    forall i, j :: 0 <= i < j < |stored| && stored[i].file == stored[j].file ==>
      stored[i].start + stored[i].size <= stored[j].start
  }

  // The used part of every file is allocated on disk.
  ghost predicate Allocated(files: seq<Info>, chunks: seq<nat>) {
    |chunks| == |files| && forall f :: 0 <= f < |files| ==> files[f].size <= chunks[f] * BLOCK_CHUNK
  }

  class BlockFileInfoStore {
    var files: seq<Info>
    var lastFile: nat
    // The blocks stored, in order, and the chunks allocated for each file.
    ghost var stored: seq<Range>
    ghost var chunks: seq<nat>

    constructor ()
      ensures Valid() && stored == []
    {
      files, lastFile, stored, chunks := [], 0, [], [];
    }

    ghost predicate Valid()
      reads this
    {
      && (files == [] ==> lastFile == 0) && (files != [] ==> lastFile < |files|)
      && Inside(files, stored) && Apart(stored) && Allocated(files, chunks)
    }

    // Makes sure that the file is known.
    method Extend(f: nat)
      modifies `files, `chunks
      requires |chunks| == |files| && f <= |files|
      ensures |files| == |chunks| == (if old(|files|) <= f then f + 1 else old(|files|))
      ensures files[..old(|files|)] == old(files) && chunks[..old(|chunks|)] == old(chunks)
      ensures old(|files|) <= f ==> files[f] == EMPTY && chunks[f] == 0
    {
      if |files| <= f {
        files := files + [EMPTY];
        chunks := chunks + [0];
      }
    }

    // The file that a new block goes to.
    method FindFile(add: nat, preferred: nat) returns (f: nat)
      requires Valid()
      modifies `files, `chunks
      ensures f == Chosen(old(files), old(lastFile), add, preferred)
      ensures f < |files| == |chunks| && HasRoom(files[f], add, preferred)
      ensures |files| >= old(|files|) && files[..old(|files|)] == old(files) && chunks[..old(|chunks|)] == old(chunks)
      ensures forall k :: old(|files|) <= k < |files| ==> files[k] == EMPTY && chunks[k] == 0
    {
      f := lastFile;
      Extend(f);
      while files[f].size != 0 && files[f].size + add >= preferred
        invariant lastFile <= f < |files| == |chunks| && |files| >= old(|files|)
        invariant files[..old(|files|)] == old(files) && chunks[..old(|chunks|)] == old(chunks)
        invariant forall k :: old(|files|) <= k < |files| ==> files[k] == EMPTY && chunks[k] == 0
        invariant Chosen(old(files), old(lastFile), add, preferred) == Chosen(old(files), f, add, preferred)
        decreases old(|files|) - f
      {
        f := f + 1;
        Extend(f);
      }
    }

    // Where a new block of add bytes goes. The position is cut to 32 bits, which
    // loses nothing unless files may grow beyond 4 GiB.
    method FindBlockPos(add: nat, height: int, time: int, preferred: nat, diskOk: bool)
      returns (ok: bool, file: nat, pos: nat)
      requires Valid()
      modifies this
      ensures file == Chosen(old(files), old(lastFile), add, preferred) && file < |files| && lastFile == file
      ensures var start := if file < |old(files)| then old(files)[file].size else 0;
        && pos == start % OFFSETS
        && (start < OFFSETS <==> pos == start)
        && (preferred <= OFFSETS ==> pos == start)
        && stored == old(stored) + [Range(file, start, add, height)]
        && files[file].size == start + add
      ensures forall f :: 0 <= f < |files| && f != file ==>
        files[f] == if f < |old(files)| then old(files)[f] else EMPTY
      ensures ok ==> Valid()
      ensures !ok ==> !diskOk && Inside(files, stored) && Apart(stored)
    {
      file := FindFile(add, preferred);
      ghost var known, chunks', start := files, chunks, files[file].size;
      pos := files[file].size % OFFSETS;
      lastFile := file;
      files := files[file := WithNewBlock(files[file], height, time, add)];
      StoredMore(old(files), known, old(stored), file, height, time, add);
      stored := stored + [Range(file, start, add, height)];
      var oldChunks := OldChunks(pos);
      var newChunks := Chunks(files[file].size, BLOCK_CHUNK);
      ok := true;
      if newChunks > oldChunks {
        if diskOk {
          chunks := chunks[file := if chunks[file] < newChunks then newChunks else chunks[file]];
        } else {
          ok := false;
        }
      }
      if ok {
        AllocatedMore(known, chunks', files, file, start, pos, chunks);
      }
    }

    method CalculateCurrentUsage() returns (r: nat)
      ensures r == Usage(files, |files|)
    {
      r := 0;
      for f := 0 to |files|
        invariant r == Usage(files, f)
      {
        r := r + files[f].size + files[f].undoSize;
      }
    }

    // A deleted file holds no blocks any more.
    method ClearFileInfo(f: nat)
      requires Valid() && f < |files|
      modifies this
      ensures Valid() && files == old(files)[f := EMPTY] && stored == Without(old(stored), f)
    {
      files := files[f := EMPTY];
      WithoutOk(old(files), stored, f);
      stored := Without(stored, f);
      chunks := chunks[f := 0];
    }

    // The files to delete: from the first on, those that hold no block near the
    // tip, until what is left and room for one more allocation fit the target.
    // No tip is given as -1.
    method FindFilesToPrune(tip: int, pruneAfter: int, target: nat) returns (r: set<nat>)
      requires Valid() && tip >= -1
      ensures tip < 0 || target == 0 || tip <= pruneAfter ==> r == {}
      ensures !(tip < 0 || target == 0 || tip <= pruneAfter) ==>
        Pruned(files, lastFile, tip - MIN_BLOCKS_TO_KEEP, target, r)
      ensures forall i :: 0 <= i < |stored| && stored[i].file in r ==> stored[i].height <= tip - MIN_BLOCKS_TO_KEEP
    {
      r := {};
      if tip < 0 || target == 0 || tip <= pruneAfter {
        return;
      }
      var usage := CalculateCurrentUsage();
      r := Prune(files, lastFile, tip - MIN_BLOCKS_TO_KEEP, target, usage);
    }
  }

  // Exactly the first eligible files are taken, each while it was needed; in the
  // end no more is needed or no eligible file is left.
  ghost predicate Pruned(files: seq<Info>, last: nat, limit: int, target: nat, r: set<nat>) {
    && last <= |files| && (forall f :: f in r ==> f < last)
    && Taking(files, r, last, limit, target)
    && (Usage(files, |files|) - Freed(files, r, last) + BUFFER < target
        || forall f :: 0 <= f < last && Eligible(files, f, limit) ==> f in r)
  }

  // Each file taken is eligible and was needed, and so was every eligible one
  // before it.
  ghost predicate Taking(files: seq<Info>, r: set<nat>, f: nat, limit: int, target: nat)
    requires f <= |files|
  {
    forall g :: g in r ==>
      && g < f && Eligible(files, g, limit)
      && Usage(files, |files|) - Freed(files, r, g) + BUFFER >= target
      && forall k :: 0 <= k < g && Eligible(files, k, limit) ==> k in r
  }

  method Prune(files: seq<Info>, last: nat, limit: int, target: nat, all: nat) returns (r: set<nat>)
    requires last <= |files| && all == Usage(files, |files|)
    ensures Pruned(files, last, limit, target, r)
  {
    r := {};
    var usage := all;
    FreedNone(files, last);
    if usage + BUFFER < target {
      return;
    }
    var f := 0;
    while f < last
      invariant 0 <= f <= last && usage == all - Freed(files, r, f) && Taking(files, r, f, limit, target)
      invariant forall g :: 0 <= g < f && Eligible(files, g, limit) ==> g in r
    {
      var bytes := files[f].size + files[f].undoSize;
      if files[f].size != 0 {
        if usage + BUFFER < target {
          break;
        }
        if files[f].heightLast <= limit {
          FreedMore(files, r, f);
          FreedAtMost(files, r + {f}, f + 1);
          r := r + {f};
          usage := usage - bytes;
        }
      }
      f := f + 1;
    }
    FreedAbove(files, r, f, last);
  }

  const BUFFER := BLOCK_CHUNK + UNDO_CHUNK

  // The bytes in the first n files.
  function Usage(files: seq<Info>, n: nat): nat
    requires n <= |files|
  { if n == 0 then 0 else Usage(files, n - 1) + files[n - 1].size + files[n - 1].undoSize }

  // The bytes in those of the first n files that are in r.
  function Freed(files: seq<Info>, r: set<nat>, n: nat): nat
    requires n <= |files|
  { if n == 0 then 0 else Freed(files, r, n - 1) + if n - 1 in r then files[n - 1].size + files[n - 1].undoSize else 0 }

  predicate Eligible(files: seq<Info>, f: nat, limit: int) {
    f < |files| && files[f].size != 0 && files[f].heightLast <= limit
  }

  lemma {:induction false} FreedSame(files: seq<Info>, r: set<nat>, f: nat, n: nat)
    requires n <= f && n <= |files|
    ensures Freed(files, r + {f}, n) == Freed(files, r, n)
  {
    if n > 0 {
      FreedSame(files, r, f, n - 1);
    }
  }

  // A further file counts only for itself.
  lemma FreedMore(files: seq<Info>, r: set<nat>, f: nat)
    requires f < |files| && f !in r
    ensures Freed(files, r + {f}, f + 1) == Freed(files, r, f) + files[f].size + files[f].undoSize
    ensures forall g :: 0 <= g <= f ==> Freed(files, r + {f}, g) == Freed(files, r, g)
  {
    forall g | 0 <= g <= f
      ensures Freed(files, r + {f}, g) == Freed(files, r, g)
    {
      FreedSame(files, r, f, g);
    }
  }

  lemma {:induction false} FreedAbove(files: seq<Info>, r: set<nat>, f: nat, n: nat)
    requires f <= n <= |files| && forall g :: g in r ==> g < f
    ensures Freed(files, r, n) == Freed(files, r, f)
  {
    if f < n {
      FreedAbove(files, r, f, n - 1);
    }
  }

  lemma FreedNone(files: seq<Info>, n: nat)
    requires n <= |files|
    ensures Freed(files, {}, n) == 0
  {
    FreedAbove(files, {}, 0, n);
  }

  lemma {:induction false} FreedAtMost(files: seq<Info>, r: set<nat>, n: nat)
    requires n <= |files|
    ensures Freed(files, r, n) <= Usage(files, n) <= Usage(files, |files|)
  {
    if n > 0 {
      FreedAtMost(files, r, n - 1);
    }
    UsageGrows(files, n, |files|);
  }

  lemma {:induction false} UsageGrows(files: seq<Info>, m: nat, n: nat)
    requires m <= n <= |files|
    ensures Usage(files, m) <= Usage(files, n)
  {
    if m < n {
      UsageGrows(files, m, n - 1);
    }
  }

  ghost function Without(stored: seq<Range>, f: nat): (r: seq<Range>)
    ensures forall x :: x in r <==> x in stored && x.file != f
  {
    if stored == [] then []
    else
      var last := stored[|stored| - 1];
      assert stored == stored[..|stored| - 1] + [last];
      Without(stored[..|stored| - 1], f) + if last.file == f then [] else [last]
  }

  lemma {:induction false} WithoutOk(files: seq<Info>, stored: seq<Range>, f: nat)
    requires Inside(files, stored) && Apart(stored) && f < |files|
    ensures Inside(files[f := EMPTY], Without(stored, f)) && Apart(Without(stored, f))
  {
    WithoutInside(files, stored, f);
    WithoutApart(stored, f);
  }

  lemma WithoutInside(files: seq<Info>, stored: seq<Range>, f: nat)
    requires Inside(files, stored) && f < |files|
    ensures Inside(files[f := EMPTY], Without(stored, f))
  {
    var rest := Without(stored, f);
    forall i | 0 <= i < |rest|
      ensures rest[i].file < |files| && rest[i].file != f
        && rest[i].start + rest[i].size <= files[rest[i].file].size && rest[i].height <= files[rest[i].file].heightLast
    {
      assert rest[i] in rest;
      var k :| 0 <= k < |stored| && stored[k] == rest[i];
    }
  }

  lemma {:induction false} WithoutApart(stored: seq<Range>, f: nat)
    requires Apart(stored)
    ensures Apart(Without(stored, f))
  {
    if stored != [] {
      var n := |stored| - 1;
      WithoutApart(stored[..n], f);
      var rest := Without(stored[..n], f);
      forall i | 0 <= i < |rest| && rest[i].file == stored[n].file
        ensures rest[i].start + rest[i].size <= stored[n].start
      {
        assert rest[i] in rest;
        var k :| 0 <= k < n && stored[..n][k] == rest[i];
        assert stored[k] == rest[i];
      }
    }
  }

  // A block put behind everything in its file.
  lemma StoredMore(was: seq<Info>, known: seq<Info>, stored: seq<Range>, f: nat, height: int, time: int, add: nat)
    requires Inside(was, stored) && Apart(stored) && |was| <= |known| && known[..|was|] == was && f < |known|
    ensures Inside(known[f := WithNewBlock(known[f], height, time, add)],
                   stored + [Range(f, known[f].size, add, height)])
    ensures Apart(stored + [Range(f, known[f].size, add, height)])
  {
    var files := known[f := WithNewBlock(known[f], height, time, add)];
    forall i | 0 <= i < |stored|
      ensures stored[i].file < |files| &&
        stored[i].start + stored[i].size <= known[stored[i].file].size <= files[stored[i].file].size
      ensures stored[i].height <= files[stored[i].file].heightLast
    {
      assert known[stored[i].file] == known[..|was|][stored[i].file];
    }
  }

  lemma ChunksCover(size: nat, n: nat)
    ensures size <= n * BLOCK_CHUNK <==> Chunks(size, BLOCK_CHUNK) <= n
  {}

  lemma FewerChunks(pos: nat)
    ensures OldChunks(pos) <= Chunks(pos, BLOCK_CHUNK)
  {}

  // Up to a chunk below 4 GiB, and no further, the old chunks are counted right;
  // at the last position none of the 256 are.
  lemma OldChunksExact(pos: nat)
    requires pos < OFFSETS
    ensures OldChunks(pos) == Chunks(pos, BLOCK_CHUNK) <==> pos + BLOCK_CHUNK - 1 < OFFSETS
    ensures OldChunks(OFFSETS - 1) == 0 && Chunks(OFFSETS - 1, BLOCK_CHUNK) == 256
  {}

  // A file of 4 GiB that may still grow: the next block is given position 0.
  lemma PositionLost(add: nat)
    ensures var i := EMPTY.(size := OFFSETS);
      HasRoom(i, add, OFFSETS + add + 1) && i.size % OFFSETS == 0 != i.size
  {}

  // Either new chunks were allocated, or the old ones reach far enough.
  lemma AllocatedMore(known: seq<Info>, before: seq<nat>, files: seq<Info>, f: nat, start: nat, pos: nat,
                      chunks: seq<nat>)
    requires f < |known| == |before| == |files| && Allocated(known, before) && known[f].size == start && pos <= start
    requires forall k :: 0 <= k < |files| && k != f ==> files[k] == known[k]
    requires var n := Chunks(files[f].size, BLOCK_CHUNK);
      chunks == if n > OldChunks(pos) && before[f] < n then before[f := n] else before
    ensures Allocated(files, chunks)
  {
    ChunksCover(start, before[f]);
    ChunksCover(pos, before[f]);
    FewerChunks(pos);
    ChunksCover(files[f].size, chunks[f]);
  }
}
