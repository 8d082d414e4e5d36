/** The block file system (FileSystem/src/functions/operaciones.c and bitmap.c): a file is a
    size and a list of blocks taken from a bitmap.  Seen from outside it is one array of
    bytes. */
module FileSystem {
  import opened Bytes
  import opened Folds
  import opened Lists

  const ENOENT := 2
  const ENOSPC := 28

  /** `t_metadata_archivo` */
  datatype FileMeta = FileMeta(size: nat, blocks: seq<nat>)

  /** 1 for a bit that is clear: summing it counts the free blocks. */
  function ClearWeight(occupied: bool): int {
    if occupied then 0 else 1
  }

  // ----- how many blocks a size needs

  /** ceil(a / b) */
  function CeilDiv(a: nat, b: nat): nat
    requires b > 0
  {
    (a + b - 1) / b
  }

  function BlocksFor(size: nat, blockSize: nat): nat
    requires blockSize > 0
  {
    if size == 0 then 1 else CeilDiv(size, blockSize)
  }

  lemma CeilDivBounds(a: nat, b: nat)
    requires b > 0
    ensures a <= CeilDiv(a, b) * b < a + b
  {
    var x := a + b - 1;
    assert x == x / b * b + x % b;
  }

  /** Only one number of blocks covers `a` bytes without a block to spare. */
  lemma CeilDivUnique(a: nat, b: nat, n: nat)
    requires b > 0 && a <= n * b < a + b
    ensures CeilDiv(a, b) == n
  {
    CeilDivBounds(a, b);
    var c := CeilDiv(a, b);
    if c < n {
      LaterPageStartsAfter(c, n, b);
    } else if n < c {
      LaterPageStartsAfter(n, c, b);
    }
  }

  // ----- the bytes of a file

  predicate BlocksIn(store: seq<seq<byte>>, blocks: seq<nat>, blockSize: nat) {
    && (forall i :: 0 <= i < |store| ==> |store[i]| == blockSize)
    && (forall i :: 0 <= i < |blocks| ==> blocks[i] < |store|)
  }

  lemma PositionInBlocks(count: nat, blockSize: nat, pos: nat)
    requires blockSize > 0 && pos < count * blockSize
    ensures pos / blockSize < count && pos % blockSize < blockSize
  {
    assert pos == pos / blockSize * blockSize + pos % blockSize;
    if pos / blockSize >= count {
      if pos / blockSize > count { LaterPageStartsAfter(count, pos / blockSize, blockSize); }
    }
  }

  /** The byte at `pos` of the row of blocks. */
  function FileByte(store: seq<seq<byte>>, blocks: seq<nat>, blockSize: nat, pos: nat): byte
    requires blockSize > 0 && BlocksIn(store, blocks, blockSize) && pos < |blocks| * blockSize
  {
    PositionInBlocks(|blocks|, blockSize, pos);
    store[blocks[pos / blockSize]][pos % blockSize]
  }

  /** What the file holds. */
  function Content(store: seq<seq<byte>>, f: FileMeta, blockSize: nat): (r: seq<byte>)
    requires blockSize > 0 && BlocksIn(store, f.blocks, blockSize) && f.size <= |f.blocks| * blockSize
    ensures |r| == f.size
    ensures forall p :: 0 <= p < f.size ==> r[p] == FileByte(store, f.blocks, blockSize, p)
  {
    seq(f.size, p requires 0 <= p < f.size => FileByte(store, f.blocks, blockSize, p))
  }

  /** A chunk inside block `k` is a stretch of the file. */
  lemma ChunkOfFile(store: seq<seq<byte>>, blocks: seq<nat>, blockSize: nat, k: nat, start: nat, n: nat)
    requires blockSize > 0 && BlocksIn(store, blocks, blockSize) && k < |blocks| && start + n <= blockSize
    ensures blocks[k] < |store| && |store[blocks[k]]| == blockSize
    ensures k * blockSize + start + n <= |blocks| * blockSize
    ensures forall p :: k * blockSize + start <= p < k * blockSize + start + n ==>
              FileByte(store, blocks, blockSize, p) == store[blocks[k]][p - k * blockSize]
  {
    LaterPageStartsAfter(k, |blocks|, blockSize);
    forall p | k * blockSize + start <= p < k * blockSize + start + n
      ensures FileByte(store, blocks, blockSize, p) == store[blocks[k]][p - k * blockSize]
    {
      PageOfAddress(blockSize, k, p - k * blockSize);
    }
  }

  /** Copying a chunk into block `k` changes that stretch of the file and nothing else. */
  lemma ChunkWritten(store: seq<seq<byte>>, blocks: seq<nat>, blockSize: nat, k: nat, start: nat, data: seq<byte>)
    requires blockSize > 0 && BlocksIn(store, blocks, blockSize) && NoDuplicates(blocks)
    requires k < |blocks| && start + |data| <= blockSize
    ensures var store' := store[blocks[k] := Overlay(store[blocks[k]], start, data)];
            var from := k * blockSize + start;
            && BlocksIn(store', blocks, blockSize)
            && forall p :: 0 <= p < |blocks| * blockSize ==>
                 FileByte(store', blocks, blockSize, p) ==
                 if from <= p < from + |data| then data[p - from] else FileByte(store, blocks, blockSize, p)
  {
    var store' := store[blocks[k] := Overlay(store[blocks[k]], start, data)];
    hide FileByte, NoDuplicates;
    forall p | 0 <= p < |blocks| * blockSize
      ensures FileByte(store', blocks, blockSize, p) ==
              if k * blockSize + start <= p < k * blockSize + start + |data| then data[p - (k * blockSize + start)]
              else FileByte(store, blocks, blockSize, p)
    {
      ByteAfterChunk(store, blocks, blockSize, k, start, data, p);
    }
  }

  lemma ByteAfterChunk(store: seq<seq<byte>>, blocks: seq<nat>, blockSize: nat, k: nat, start: nat, data: seq<byte>, p: nat)
    requires blockSize > 0 && BlocksIn(store, blocks, blockSize) && NoDuplicates(blocks)
    requires k < |blocks| && start + |data| <= blockSize && p < |blocks| * blockSize
    ensures var store' := store[blocks[k] := Overlay(store[blocks[k]], start, data)];
            var from := k * blockSize + start;
            FileByte(store', blocks, blockSize, p) ==
            if from <= p < from + |data| then data[p - from] else FileByte(store, blocks, blockSize, p)
  {
    hide FileByte, Overlay, NoDuplicates;
    var store' := store[blocks[k] := Overlay(store[blocks[k]], start, data)];
    BlockHit(blockSize, k, start, |data|, p);
    FileByteAt(store, blocks, blockSize, p);
    FileByteAt(store', blocks, blockSize, p);
    StoredByte(store, blocks, k, start, data, p / blockSize, p % blockSize);
  }

  lemma StoredByte(store: seq<seq<byte>>, blocks: seq<nat>, k: nat, start: nat, data: seq<byte>, i: nat, o: nat)
    requires k < |blocks| && i < |blocks| && NoDuplicates(blocks)
    requires blocks[i] < |store| && blocks[k] < |store|
    requires start + |data| <= |store[blocks[k]]| && o < |store[blocks[i]]|
    ensures store[blocks[k] := Overlay(store[blocks[k]], start, data)][blocks[i]][o] ==
            if i == k && start <= o < start + |data| then data[o - start] else store[blocks[i]][o]
  {
    assert i < k ==> blocks[i] != blocks[k];
    assert k < i ==> blocks[i] != blocks[k];
  }

  lemma FileByteAt(store: seq<seq<byte>>, blocks: seq<nat>, blockSize: nat, p: nat)
    requires blockSize > 0 && BlocksIn(store, blocks, blockSize) && p < |blocks| * blockSize
    ensures p / blockSize < |blocks| && p % blockSize < blockSize
    ensures FileByte(store, blocks, blockSize, p) == store[blocks[p / blockSize]][p % blockSize]
  {
    PositionInBlocks(|blocks|, blockSize, p);
  }

  lemma BlockHit(blockSize: nat, k: nat, start: nat, n: nat, p: nat)
    requires blockSize > 0 && start + n <= blockSize
    ensures k * blockSize + start <= p < k * blockSize + start + n <==>
            p / blockSize == k && start <= p % blockSize < start + n
    ensures p / blockSize == k ==> p - (k * blockSize + start) == p % blockSize - start
  {
    assert p == p / blockSize * blockSize + p % blockSize;
    if k * blockSize + start <= p < k * blockSize + start + n {
      PageOfAddress(blockSize, k, p - k * blockSize);
    }
  }

  // ----- who owns which block

  /** `owner` says which file holds a block, and at which position: every listed block is
      marked, and no block is listed twice, in one file or in two. */
  ghost predicate Ownership(bitmap: seq<bool>, files: map<string, FileMeta>, owner: map<nat, (string, nat)>) {
    && ListedAreOwned(files, owner)
    && OwnedAreListed(files, owner)
    && forall b :: b in owner ==> b < |bitmap| && bitmap[b]
  }

  ghost predicate ListedAreOwned(files: map<string, FileMeta>, owner: map<nat, (string, nat)>) {
    forall p :: p in files ==> AreOwned(files[p].blocks, p, owner)
  }

  ghost predicate AreOwned(blocks: seq<nat>, path: string, owner: map<nat, (string, nat)>) {
    forall i :: 0 <= i < |blocks| ==> blocks[i] in owner && owner[blocks[i]] == (path, i)
  }

  ghost predicate OwnedAreListed(files: map<string, FileMeta>, owner: map<nat, (string, nat)>) {
    forall b :: b in owner ==>
      owner[b].0 in files && owner[b].1 < |files[owner[b].0].blocks| && files[owner[b].0].blocks[owner[b].1] == b
  }

  /** Lists of different files share no block, and no list repeats one. */
  lemma ListsDisjoint(bitmap: seq<bool>, files: map<string, FileMeta>, owner: map<nat, (string, nat)>,
                      p: string, i: nat, q: string, j: nat)
    requires Ownership(bitmap, files, owner)
    requires p in files && q in files && i < |files[p].blocks| && j < |files[q].blocks| && (p, i) != (q, j)
    ensures files[p].blocks[i] != files[q].blocks[j]
    ensures files[p].blocks[i] < |bitmap| && bitmap[files[p].blocks[i]]
  {
    assert owner[files[p].blocks[i]] == (p, i) && owner[files[q].blocks[j]] == (q, j);
  }

  ghost predicate SizesOk(files: map<string, FileMeta>, blockSize: nat)
    requires blockSize > 0
  {
    forall p :: p in files ==> |files[p].blocks| == BlocksFor(files[p].size, blockSize)
  }

  /** The bits after `taken` were taken. */
  ghost predicate Taken(bitmap: seq<bool>, bitmap': seq<bool>, taken: seq<nat>) {
    && |bitmap'| == |bitmap|
    && NoDuplicates(taken)
    && (forall b :: b in taken ==> b < |bitmap| && !bitmap[b])
    && (forall b :: 0 <= b < |bitmap| ==> (bitmap'[b] <==> bitmap[b] || b in taken))
  }

  /** Each block taken was the lowest free one at its time. */
  ghost predicate LowestFirst(bitmap: seq<bool>, taken: seq<nat>) {
    forall i, k: nat :: 0 <= i < |taken| && k < taken[i] && k < |bitmap| ==> bitmap[k] || k in taken[..i]
  }

  lemma LowestNext(bitmap: seq<bool>, taken: seq<nat>, position: nat)
    requires LowestFirst(bitmap, taken)
    requires forall k: nat :: k < position && k < |bitmap| ==> bitmap[k] || k in taken
    ensures LowestFirst(bitmap, taken + [position])
  {
    assert forall i :: 0 <= i <= |taken| ==> (taken + [position])[..i] == taken[..i];
  }

  /** The owners after a file got `taken` blocks at the end of its list. */
  ghost function Extend(owner: map<nat, (string, nat)>, path: string, at: nat, taken: seq<nat>): map<nat, (string, nat)>
    decreases |taken|
  {
    if taken == [] then owner
    else Extend(owner, path, at, taken[..|taken| - 1])[taken[|taken| - 1] := (path, at + |taken| - 1)]
  }

  lemma {:induction false} ExtendMeaning(owner: map<nat, (string, nat)>, path: string, at: nat, taken: seq<nat>)
    requires NoDuplicates(taken)
    ensures forall b :: b in Extend(owner, path, at, taken) <==> b in owner || b in taken
    ensures forall b :: b in owner && b !in taken ==> Extend(owner, path, at, taken)[b] == owner[b]
    ensures forall i :: 0 <= i < |taken| ==> Extend(owner, path, at, taken)[taken[i]] == (path, at + i)
    decreases |taken|
  {
    if taken != [] {
      hide NoDuplicates;
      LastApart(taken);
      ExtendMeaning(owner, path, at, taken[..|taken| - 1]);
    }
  }

  lemma LastApart(taken: seq<nat>)
    requires taken != [] && NoDuplicates(taken)
    ensures forall b :: b in taken <==> b in taken[..|taken| - 1] || b == taken[|taken| - 1]
    ensures taken[|taken| - 1] !in taken[..|taken| - 1] && NoDuplicates(taken[..|taken| - 1])
    ensures forall i :: 0 <= i < |taken| - 1 ==> taken[i] == taken[..|taken| - 1][i]
  {
  }

  lemma FileGrows(bitmap: seq<bool>, bitmap': seq<bool>, files: map<string, FileMeta>,
                  owner: map<nat, (string, nat)>, path: string, meta: FileMeta, taken: seq<nat>)
    requires Ownership(bitmap, files, owner) && Taken(bitmap, bitmap', taken)
    requires meta.blocks == (if path in files then files[path].blocks else []) + taken
    ensures Ownership(bitmap', files[path := meta],
                      Extend(owner, path, if path in files then |files[path].blocks| else 0, taken))
  {
    var at := if path in files then |files[path].blocks| else 0;
    ExtendMeaning(owner, path, at, taken);
    GrownAreOwned(files, owner, path, meta, at, taken);
    GrownAreListed(bitmap, files, owner, path, meta, at, taken);
    hide Extend, ListedAreOwned, OwnedAreListed;
  }

  lemma GrownAreOwned(files: map<string, FileMeta>, owner: map<nat, (string, nat)>,
                      path: string, meta: FileMeta, at: nat, taken: seq<nat>)
    requires ListedAreOwned(files, owner) && NoDuplicates(taken)
    requires forall b :: b in taken ==> b !in owner
    requires at == (if path in files then |files[path].blocks| else 0)
    requires meta.blocks == (if path in files then files[path].blocks else []) + taken
    ensures ListedAreOwned(files[path := meta], Extend(owner, path, at, taken))
  {
    hide Extend, AreOwned, NoDuplicates;
    ExtendMeaning(owner, path, at, taken);
    var owner' := Extend(owner, path, at, taken);
    var before := if path in files then files[path].blocks else [];
    if path in files {
      assert AreOwned(files[path].blocks, path, owner);
    } else {
      NoneOwned(path, owner);
    }
    ListOwned(before, taken, path, owner, owner');
    ListedReplaced(files, owner, owner', path, meta, taken);
  }

  lemma ListedReplaced(files: map<string, FileMeta>, owner: map<nat, (string, nat)>, owner': map<nat, (string, nat)>,
                       path: string, meta: FileMeta, taken: seq<nat>)
    requires ListedAreOwned(files, owner) && AreOwned(meta.blocks, path, owner')
    requires forall b :: b in taken ==> b !in owner
    requires forall b :: b in owner && b !in taken ==> b in owner' && owner'[b] == owner[b]
    ensures ListedAreOwned(files[path := meta], owner')
  {
    hide AreOwned;
    forall p | p in files && p != path ensures AreOwned(files[p].blocks, p, owner') {
      StillOwned(files[p].blocks, p, owner, owner', taken);
    }
  }

  lemma NoneOwned(path: string, owner: map<nat, (string, nat)>)
    ensures AreOwned([], path, owner)
  {
  }

  /** The owners of other blocks do not matter. */
  lemma StillOwned(blocks: seq<nat>, path: string, owner: map<nat, (string, nat)>, owner': map<nat, (string, nat)>, taken: seq<nat>)
    requires AreOwned(blocks, path, owner)
    requires forall b :: b in taken ==> b !in owner
    requires forall b :: b in owner && b !in taken ==> b in owner' && owner'[b] == owner[b]
    ensures AreOwned(blocks, path, owner')
  {
  }

  lemma ListOwned(before: seq<nat>, taken: seq<nat>, path: string, owner: map<nat, (string, nat)>, owner': map<nat, (string, nat)>)
    requires AreOwned(before, path, owner)
    requires forall b :: b in taken ==> b !in owner
    requires forall b :: b in owner && b !in taken ==> b in owner' && owner'[b] == owner[b]
    requires forall i :: 0 <= i < |taken| ==> taken[i] in owner' && owner'[taken[i]] == (path, |before| + i)
    ensures AreOwned(before + taken, path, owner')
  {
    var all := before + taken;
    forall i | 0 <= i < |all| ensures all[i] in owner' && owner'[all[i]] == (path, i) {
      if i >= |before| {
        assert all[i] == taken[i - |before|];
      }
    }
  }

  lemma GrownAreListed(bitmap: seq<bool>, files: map<string, FileMeta>, owner: map<nat, (string, nat)>,
                       path: string, meta: FileMeta, at: nat, taken: seq<nat>)
    requires Ownership(bitmap, files, owner) && NoDuplicates(taken)
    requires at == (if path in files then |files[path].blocks| else 0)
    requires meta.blocks == (if path in files then files[path].blocks else []) + taken
    ensures OwnedAreListed(files[path := meta], Extend(owner, path, at, taken))
  {
    ExtendMeaning(owner, path, at, taken);
    hide Extend, ListedAreOwned;
    var owner', files' := Extend(owner, path, at, taken), files[path := meta];
    forall b | b in owner'
      ensures owner'[b].0 in files' && owner'[b].1 < |files'[owner'[b].0].blocks|
      ensures files'[owner'[b].0].blocks[owner'[b].1] == b
    {
      if b in taken {
        var i :| 0 <= i < |taken| && taken[i] == b;
        assert owner'[taken[i]] == (path, at + i);
      } else {
        assert owner'[b] == owner[b];
      }
    }
  }

  /** A marked block that no file lists does no harm. */
  lemma MoreMarked(bitmap: seq<bool>, bitmap': seq<bool>, files: map<string, FileMeta>, owner: map<nat, (string, nat)>)
    requires Ownership(bitmap, files, owner) && |bitmap'| == |bitmap|
    requires forall b :: 0 <= b < |bitmap| && bitmap[b] ==> bitmap'[b]
    ensures Ownership(bitmap', files, owner)
  {
  }

  /** The bits after the blocks of a file were freed. */
  ghost predicate Cleared(bitmap: seq<bool>, bitmap': seq<bool>, blocks: seq<nat>) {
    && |bitmap'| == |bitmap|
    && forall b :: 0 <= b < |bitmap| ==> (bitmap'[b] <==> bitmap[b] && b !in blocks)
  }

  lemma FileGoes(bitmap: seq<bool>, bitmap': seq<bool>, files: map<string, FileMeta>,
                 owner: map<nat, (string, nat)>, path: string)
    requires Ownership(bitmap, files, owner) && path in files && Cleared(bitmap, bitmap', files[path].blocks)
    ensures Ownership(bitmap', files - {path}, map b | b in owner && owner[b].0 != path :: owner[b])
  {
  }

  // ----- what a request did

  /** The bytes of the blocks before and after laying `data` over them at `offset`, up to the
      `done`-th byte. */
  ghost predicate WrittenTo(store: seq<seq<byte>>, store': seq<seq<byte>>, blocks: seq<nat>, blockSize: nat,
                            offset: nat, data: seq<byte>, done: nat)
    requires blockSize > 0
  {
    && |store'| == |store| && BlocksIn(store, blocks, blockSize) && BlocksIn(store', blocks, blockSize)
    && done <= |data|
    && (forall b :: 0 <= b < |store| && b !in blocks ==> store'[b] == store[b])
    && forall p :: 0 <= p < |blocks| * blockSize ==>
         FileByte(store', blocks, blockSize, p) ==
         if offset <= p < offset + done then data[p - offset] else FileByte(store, blocks, blockSize, p)
  }

  lemma WrittenMore(store: seq<seq<byte>>, store1: seq<seq<byte>>, blocks: seq<nat>, blockSize: nat,
                    offset: nat, data: seq<byte>, done: nat, k: nat, start: nat, n: nat)
    requires blockSize > 0 && WrittenTo(store, store1, blocks, blockSize, offset, data, done)
    requires NoDuplicates(blocks) && k < |blocks| && start + n <= blockSize && done + n <= |data|
    requires k * blockSize + start == offset + done
    ensures WrittenTo(store, store1[blocks[k] := Overlay(store1[blocks[k]], start, data[done..done + n])],
                      blocks, blockSize, offset, data, done + n)
  {
    ChunkWritten(store1, blocks, blockSize, k, start, data[done..done + n]);
    hide FileByte, NoDuplicates;
  }

  /** `content` with `data` laid over it at `offset`; a gap is filled with `hole`. */
  function Overlaid(content: seq<byte>, offset: nat, data: seq<byte>, hole: seq<byte>): seq<byte>
    requires offset <= |content| + |hole|
  {
    (content + hole)[..offset] + data + (if offset + |data| < |content| then content[offset + |data|..] else [])
  }

  /** `hole` is what the blocks held at the positions from `size` on. */
  ghost predicate HeldBefore(store: seq<seq<byte>>, blocks: seq<nat>, blockSize: nat, size: nat, hole: seq<byte>)
    requires blockSize > 0
  {
    forall q :: size <= q < size + |hole| ==>
      && q / blockSize < |blocks| && blocks[q / blockSize] < |store|
      && q % blockSize < |store[blocks[q / blockSize]]|
      && hole[q - size] == store[blocks[q / blockSize]][q % blockSize]
  }

  /** The metadata after a write of `n` bytes at `offset`. */
  function Written(f: FileMeta, taken: seq<nat>, offset: nat, n: nat): FileMeta {
    FileMeta(if offset + n > f.size then offset + n else f.size, f.blocks + taken)
  }

  /** A write of `data` at `offset` turns a file into this one; a gap shows the bytes that its
      blocks held before. */
  lemma ContentOverlaid(store: seq<seq<byte>>, store': seq<seq<byte>>, f: FileMeta, taken: seq<nat>, blockSize: nat,
                        offset: nat, data: seq<byte>) returns (hole: seq<byte>)
    requires blockSize > 0 && f.size <= |f.blocks| * blockSize
    requires WrittenTo(store, store', f.blocks + taken, blockSize, offset, data, |data|)
    requires offset + |data| <= |f.blocks + taken| * blockSize
    ensures BlocksIn(store, f.blocks, blockSize)
    ensures |hole| == if offset > f.size then offset - f.size else 0
    ensures HeldBefore(store, f.blocks + taken, blockSize, f.size, hole)
    ensures var f' := Written(f, taken, offset, |data|);
            && f'.size <= |f'.blocks| * blockSize && BlocksIn(store', f'.blocks, blockSize)
            && Content(store', f', blockSize) == Overlaid(Content(store, f, blockSize), offset, data, hole)
  {
    hide FileByte, BlocksIn, HeldBefore, Content, Overlaid, WrittenTo, GapBytes;
    WrittenFits(store, store', f, taken, blockSize, offset, data);
    hole := GapBytes(store, f.blocks + taken, blockSize, f.size, if offset > f.size then offset - f.size else 0);
    HoleHeld(store, f.blocks + taken, blockSize, f.size, hole);
    var f' := Written(f, taken, offset, |data|);
    forall p | 0 <= p < f'.size
      ensures Content(store', f', blockSize)[p] == if offset <= p < offset + |data| then data[p - offset]
                                                   else if p < f.size then Content(store, f, blockSize)[p] else hole[p - f.size]
    {
      ByteOverlaid(store, store', f, taken, blockSize, offset, data, hole, p);
    }
    OverlaidBytes(Content(store, f, blockSize), Content(store', f', blockSize), offset, data, hole);
  }

  lemma WrittenFits(store: seq<seq<byte>>, store': seq<seq<byte>>, f: FileMeta, taken: seq<nat>, blockSize: nat,
                    offset: nat, data: seq<byte>)
    requires blockSize > 0 && f.size <= |f.blocks| * blockSize
    requires WrittenTo(store, store', f.blocks + taken, blockSize, offset, data, |data|)
    requires offset + |data| <= |f.blocks + taken| * blockSize
    ensures BlocksIn(store, f.blocks, blockSize) && BlocksIn(store, f.blocks + taken, blockSize)
    ensures BlocksIn(store', f.blocks + taken, blockSize)
    ensures f.size <= |f.blocks + taken| * blockSize
    ensures Written(f, taken, offset, |data|).size <= |f.blocks + taken| * blockSize
  {
    hide FileByte, BlocksIn;
    MoreBlocksMoreBytes(|f.blocks|, |f.blocks + taken|, blockSize);
    FirstBlocksIn(store, f.blocks, taken, blockSize);
  }

  lemma ByteOverlaid(store: seq<seq<byte>>, store': seq<seq<byte>>, f: FileMeta, taken: seq<nat>, blockSize: nat,
                     offset: nat, data: seq<byte>, hole: seq<byte>, p: nat)
    requires blockSize > 0 && f.size <= |f.blocks| * blockSize && BlocksIn(store, f.blocks, blockSize)
    requires WrittenTo(store, store', f.blocks + taken, blockSize, offset, data, |data|)
    requires Written(f, taken, offset, |data|).size <= |f.blocks + taken| * blockSize
    requires |hole| == (if offset > f.size then offset - f.size else 0) && f.size + |hole| <= |f.blocks + taken| * blockSize
    requires forall i :: 0 <= i < |hole| ==> hole[i] == FileByte(store, f.blocks + taken, blockSize, f.size + i)
    requires p < Written(f, taken, offset, |data|).size
    ensures Content(store', Written(f, taken, offset, |data|), blockSize)[p] ==
            if offset <= p < offset + |data| then data[p - offset]
            else if p < f.size then Content(store, f, blockSize)[p] else hole[p - f.size]
  {
    hide FileByte, BlocksIn, Content;
    if p < f.size {
      FirstBlocksSame(store, f.blocks, taken, blockSize, p);
    } else if p < offset {
      assert hole[p - f.size] == FileByte(store, f.blocks + taken, blockSize, f.size + (p - f.size));
    }
  }

  /** The bytes of the row of blocks from `from` on. */
  ghost function GapBytes(store: seq<seq<byte>>, blocks: seq<nat>, blockSize: nat, from: nat, n: nat): (r: seq<byte>)
    requires blockSize > 0 && BlocksIn(store, blocks, blockSize) && from + n <= |blocks| * blockSize
    ensures |r| == n && forall i :: 0 <= i < n ==> r[i] == FileByte(store, blocks, blockSize, from + i)
  {
    if n == 0 then [] else GapBytes(store, blocks, blockSize, from, n - 1) + [FileByte(store, blocks, blockSize, from + n - 1)]
  }

  lemma OverlaidBytes(before: seq<byte>, after: seq<byte>, offset: nat, data: seq<byte>, hole: seq<byte>)
    requires |hole| == if offset > |before| then offset - |before| else 0
    requires |after| == if offset + |data| > |before| then offset + |data| else |before|
    requires forall p :: 0 <= p < |after| ==>
               after[p] == if offset <= p < offset + |data| then data[p - offset]
                           else if p < |before| then before[p] else hole[p - |before|]
    ensures after == Overlaid(before, offset, data, hole)
  {
    assert |Overlaid(before, offset, data, hole)| == |after|;
  }

  lemma HoleHeld(store: seq<seq<byte>>, blocks: seq<nat>, blockSize: nat, size: nat, hole: seq<byte>)
    requires blockSize > 0 && BlocksIn(store, blocks, blockSize) && size + |hole| <= |blocks| * blockSize
    requires forall i :: 0 <= i < |hole| ==> hole[i] == FileByte(store, blocks, blockSize, size + i)
    ensures HeldBefore(store, blocks, blockSize, size, hole)
  {
    forall q | size <= q < size + |hole|
      ensures q / blockSize < |blocks| && blocks[q / blockSize] < |store|
      ensures q % blockSize < |store[blocks[q / blockSize]]|
      ensures hole[q - size] == store[blocks[q / blockSize]][q % blockSize]
    {
      FileByteAt(store, blocks, blockSize, q);
      assert hole[q - size] == FileByte(store, blocks, blockSize, size + (q - size));
    }
  }

  lemma MoreBlocksMoreBytes(a: nat, b: nat, blockSize: nat)
    requires a <= b
    ensures a * blockSize <= b * blockSize
  {
    if a < b { LaterPageStartsAfter(a, b, blockSize); }
  }

  lemma FirstBlocksIn(store: seq<seq<byte>>, a: seq<nat>, b: seq<nat>, blockSize: nat)
    requires BlocksIn(store, a + b, blockSize)
    ensures BlocksIn(store, a, blockSize)
  {
    forall i | 0 <= i < |a| ensures a[i] < |store| { assert a[i] == (a + b)[i]; }
  }

  lemma FirstBlocksSame(store: seq<seq<byte>>, a: seq<nat>, b: seq<nat>, blockSize: nat, p: nat)
    requires blockSize > 0 && BlocksIn(store, a, blockSize) && BlocksIn(store, a + b, blockSize)
    requires p < |a| * blockSize
    ensures p < |a + b| * blockSize && FileByte(store, a + b, blockSize, p) == FileByte(store, a, blockSize, p)
  {
    MoreBlocksMoreBytes(|a|, |a + b|, blockSize);
    FileByteAt(store, a, blockSize, p);
    FileByteAt(store, a + b, blockSize, p);
  }

  /** A file whose blocks are untouched holds the same bytes. */
  lemma ContentKept(store: seq<seq<byte>>, store': seq<seq<byte>>, f: FileMeta, blockSize: nat)
    requires blockSize > 0 && |store'| == |store|
    requires BlocksIn(store, f.blocks, blockSize) && BlocksIn(store', f.blocks, blockSize)
    requires f.size <= |f.blocks| * blockSize
    requires forall i :: 0 <= i < |f.blocks| ==> store'[f.blocks[i]] == store[f.blocks[i]]
    ensures Content(store', f, blockSize) == Content(store, f, blockSize)
  {
    hide FileByte;
    forall p | 0 <= p < f.size
      ensures Content(store', f, blockSize)[p] == Content(store, f, blockSize)[p]
    {
      FileByteAt(store, f.blocks, blockSize, p);
      FileByteAt(store', f.blocks, blockSize, p);
    }
  }

  lemma NothingWritten(store: seq<seq<byte>>, blocks: seq<nat>, blockSize: nat, offset: nat, data: seq<byte>)
    requires blockSize > 0 && BlocksIn(store, blocks, blockSize)
    ensures WrittenTo(store, store, blocks, blockSize, offset, data, 0)
  {
  }

  lemma WrittenShape(store: seq<seq<byte>>, store': seq<seq<byte>>, blocks: seq<nat>, blockSize: nat,
                     offset: nat, data: seq<byte>, done: nat, k: nat)
    requires blockSize > 0 && WrittenTo(store, store', blocks, blockSize, offset, data, done) && k < |blocks|
    ensures blocks[k] < |store'| && |store'[blocks[k]]| == blockSize
  {
  }

  lemma WrittenSizes(store: seq<seq<byte>>, store': seq<seq<byte>>, blocks: seq<nat>, blockSize: nat,
                     offset: nat, data: seq<byte>, done: nat)
    requires blockSize > 0 && WrittenTo(store, store', blocks, blockSize, offset, data, done)
    ensures |store'| == |store| && forall i :: 0 <= i < |store'| ==> |store'[i]| == blockSize
  {
  }

  /** New blocks were free, so they are not in the list yet. */
  lemma GrownList(bitmap: seq<bool>, bitmap': seq<bool>, blocks: seq<nat>, taken: seq<nat>)
    requires Taken(bitmap, bitmap', taken) && NoDuplicates(blocks)
    requires forall i :: 0 <= i < |blocks| ==> blocks[i] < |bitmap| && bitmap[blocks[i]]
    ensures NoDuplicates(blocks + taken)
  {
    var all := blocks + taken;
    forall i, j | 0 <= i < j < |all| ensures all[i] != all[j] {
      if i < |blocks| <= j { assert taken[j - |blocks|] in taken; }
    }
  }

  lemma GrownIn(store: seq<seq<byte>>, bitmap: seq<bool>, bitmap': seq<bool>, blocks: seq<nat>, taken: seq<nat>, blockSize: nat)
    requires BlocksIn(store, blocks, blockSize) && |bitmap| <= |store| && Taken(bitmap, bitmap', taken)
    ensures BlocksIn(store, blocks + taken, blockSize)
  {
    forall i | 0 <= i < |blocks + taken| ensures (blocks + taken)[i] < |store| {
      if i >= |blocks| { assert taken[i - |blocks|] in taken; }
    }
  }

  /** The other files list none of the blocks that were written. */
  lemma OthersKept(bitmap: seq<bool>, bitmap': seq<bool>, store: seq<seq<byte>>, store': seq<seq<byte>>,
                   files: map<string, FileMeta>, owner: map<nat, (string, nat)>, path: string,
                   taken: seq<nat>, blockSize: nat, offset: nat, data: seq<byte>, p: string)
    requires blockSize > 0 && Ownership(bitmap, files, owner) && SizesOk(files, blockSize)
    requires path in files && p in files && p != path && Taken(bitmap, bitmap', taken)
    requires |bitmap| <= |store|
    requires WrittenTo(store, store', files[path].blocks + taken, blockSize, offset, data, |data|)
    ensures BlocksIn(store, files[p].blocks, blockSize) && BlocksIn(store', files[p].blocks, blockSize)
    ensures files[p].size <= |files[p].blocks| * blockSize
    ensures Content(store', files[p], blockSize) == Content(store, files[p], blockSize)
  {
    var written, f := files[path].blocks + taken, files[p];
    if f.size > 0 { CeilDivBounds(f.size, blockSize); }
    forall i | 0 <= i < |f.blocks|
      ensures f.blocks[i] < |store| && store'[f.blocks[i]] == store[f.blocks[i]]
    {
      assert owner[f.blocks[i]] == (p, i);
      forall j | 0 <= j < |written| ensures written[j] != f.blocks[i] {
        if j < |files[path].blocks| {
          ListsDisjoint(bitmap, files, owner, p, i, path, j);
        } else {
          assert written[j] in taken;
        }
      }
    }
    hide FileByte, Ownership;
    ContentKept(store, store', f, blockSize);
  }

  /** How many more blocks `end` bytes need when `count` are there. */
  function MoreBlocks(end: nat, count: nat, blockSize: nat): nat
    requires blockSize > 0
  {
    if end > count * blockSize then CeilDiv(end - count * blockSize, blockSize) else 0
  }

  /** The list keeps as many blocks as the size needs. */
  lemma CountStaysRight(size: nat, end: nat, count: nat, blockSize: nat)
    requires blockSize > 0 && count == BlocksFor(size, blockSize) && end > 0
    ensures end <= (count + MoreBlocks(end, count, blockSize)) * blockSize
    ensures count + MoreBlocks(end, count, blockSize) == BlocksFor(if end > size then end else size, blockSize)
  {
    CeilDivBounds(size, blockSize);
    var more := MoreBlocks(end, count, blockSize);
    assert (count + more) * blockSize == count * blockSize + more * blockSize;
    if end > count * blockSize {
      CeilDivBounds(end - count * blockSize, blockSize);
      CeilDivUnique(end, blockSize, count + more);
    } else if end > size {
      CeilDivUnique(end, blockSize, count);
    }
  }

  class BlockStore {
    const blockSize: nat
    const bitmap: array<bool>
    const store: array<seq<byte>>      // cantidadBloques blocks
    var files: map<string, FileMeta>

    ghost var owner: map<nat, (string, nat)>

    ghost predicate Valid()
      reads this, bitmap, store
    {
      && 0 < blockSize && bitmap.Length <= store.Length
      && (forall i :: 0 <= i < store.Length ==> |store[i]| == blockSize)
      && Ownership(bitmap[..], files, owner)
      && SizesOk(files, blockSize)
    }

    /** What the file holds, as one array of bytes. */
    ghost function Bytes(path: string): (r: seq<byte>)
      requires Valid() && path in files
      reads this, bitmap, store
      ensures |r| == files[path].size
    {
      FileFits(path);
      Content(store[..], files[path], blockSize)
    }

    lemma FileFits(path: string)
      requires Valid() && path in files
      ensures BlocksIn(store[..], files[path].blocks, blockSize)
      ensures NoDuplicates(files[path].blocks)
      ensures files[path].size <= |files[path].blocks| * blockSize
      ensures |files[path].blocks| == BlocksFor(files[path].size, blockSize)
      ensures forall i :: 0 <= i < |files[path].blocks| ==> files[path].blocks[i] < bitmap.Length && bitmap[files[path].blocks[i]]
    {
      if files[path].size > 0 { CeilDivBounds(files[path].size, blockSize); }
      var blocks: seq<nat> := files[path].blocks;
      forall i | 0 <= i < |blocks| ensures blocks[i] < bitmap.Length && bitmap[blocks[i]] && owner[blocks[i]] == (path, i) {
        assert blocks[i] in owner;
        assert bitmap[..][blocks[i]];
      }
    }

    constructor (blockSize: nat, blockCount: nat, bits: nat)
      requires blockSize > 0 && bits <= blockCount
      ensures Valid() && files == map[] && fresh(bitmap) && fresh(store)
      ensures this.blockSize == blockSize && store.Length == blockCount && bitmap.Length == bits
      ensures forall i :: 0 <= i < bitmap.Length ==> !bitmap[i]
    {
      this.blockSize := blockSize;
      bitmap := new bool[bits](_ => false);
      store := new seq<byte>[blockCount](_ => seq(blockSize, _ => 0));
      files, owner := map[], map[];
    }

    /** `encontrarUnBloqueLibre`: the first clear bit. */
    method FindFreeBlock() returns (position: int)
      ensures -1 <= position < bitmap.Length
      ensures position >= 0 ==> !bitmap[position] && forall k :: 0 <= k < position ==> bitmap[k]
      ensures position < 0 ==> forall k :: 0 <= k < bitmap.Length ==> bitmap[k]
    {
      for i := 0 to bitmap.Length
        invariant forall k :: 0 <= k < i ==> bitmap[k]
      {
        if !bitmap[i] {
          return i;
        }
      }
      return -1;
    }

    /** `hayNBloquesLibres`, which answers no when it is asked for none. */
    method HasFreeBlocks(needed: nat) returns (enough: bool)
      ensures enough <==> 0 < needed <= Sum(bitmap[..], ClearWeight)
    {
      var found := 0;
      var i := 0;
      assert bitmap[..0] == [];
      while i < bitmap.Length
        invariant 0 <= i <= bitmap.Length && found == Sum(bitmap[..i], ClearWeight)
        invariant found < needed || (found == 0 && needed == 0) || needed == 0
      {
        assert bitmap[..i + 1] == bitmap[..i] + [bitmap[i]];
        SumAppend(bitmap[..i], bitmap[i], ClearWeight);
        if !bitmap[i] {
          found := found + 1;
          if found == needed {
            SumSplit(bitmap[..], i + 1);
            return true;
          }
        }
        i := i + 1;
      }
      assert bitmap[..i] == bitmap[..];
      return false;
    }

    /** The allocating loop of `guardarDatos`: once enough blocks are known to be free, the
        allocations get distinct free ones. */
    method TakeBlocks(count: nat) returns (taken: seq<nat>)
      requires count <= Sum(bitmap[..], ClearWeight)
      modifies bitmap
      ensures |taken| == count && Taken(old(bitmap[..]), bitmap[..], taken) && LowestFirst(old(bitmap[..]), taken)
    {
      taken := [];
      ghost var before := bitmap[..];
      var i := 0;
      while i < count
        invariant 0 <= i <= count && |taken| == i
        invariant Taken(before, bitmap[..], taken) && LowestFirst(before, taken)
        invariant Sum(bitmap[..], ClearWeight) == Sum(before, ClearWeight) - i
      {
        ClearBitExists(bitmap[..]);
        var position := FindFreeBlock();
        ghost var now := bitmap[..];
        SumUpdate(now, position, true, ClearWeight);
        LowestNext(before, taken, position);
        taken := taken + [position];
        bitmap[position] := true;
        assert bitmap[..] == now[position := true];
        i := i + 1;
      }
    }

    /** `liberarBloqueDelBitmap` for every block of a list. */
    method ClearBlocks(blocks: seq<nat>)
      requires forall i :: 0 <= i < |blocks| ==> blocks[i] < bitmap.Length
      modifies bitmap
      ensures Cleared(old(bitmap[..]), bitmap[..], blocks)
    {
      for i := 0 to |blocks|
        invariant forall b :: 0 <= b < bitmap.Length ==> (bitmap[b] <==> old(bitmap[b]) && b !in blocks[..i])
      {
        bitmap[blocks[i]] := false;
        assert blocks[..i + 1] == blocks[..i] + [blocks[i]];
      }
      assert blocks[..|blocks|] == blocks;
    }

    /** `borrar`: clears the bits of that file and forgets it. */
    method Delete(path: string) returns (result: int)
      requires Valid()
      modifies this, bitmap
      ensures Valid()
      ensures result == if path in old(files) then 1 else -ENOENT
      ensures result == 1 ==> files == old(files) - {path}
      ensures result == 1 ==> Cleared(old(bitmap[..]), bitmap[..], old(files)[path].blocks)
      ensures result != 1 ==> files == old(files) && bitmap[..] == old(bitmap[..])
      ensures forall p :: p in files ==> p in old(files) && Bytes(p) == old(Bytes(p))
    {
      if path !in files {
        return -ENOENT;
      }
      FileFits(path);
      hide Ownership, Content, BlocksIn, NoDuplicates;
      ghost var before := bitmap[..];
      ClearBlocks(files[path].blocks);
      FileGoes(before, bitmap[..], files, owner, path);
      files := files - {path};
      owner := map b | b in owner && owner[b].0 != path :: owner[b];
      return 1;
    }

    /** `crear`.  The arguments say whether the file could be opened for writing at once,
        whether the missing directories could be made, and whether it could be opened then.
        A failed attempt leaves its block marked. */
    method Create(path: string, created: bool, directories: bool, recreated: bool) returns (result: int, ghost block: nat)
      requires Valid()
      modifies this, bitmap
      ensures Valid()
      ensures path in old(files) || (forall k :: 0 <= k < bitmap.Length ==> old(bitmap[k])) ==>
                result == -ENOENT && files == old(files) && bitmap[..] == old(bitmap[..])
      ensures path !in old(files) && (exists k :: 0 <= k < bitmap.Length && !old(bitmap[k])) ==>
                && result == (if created || directories then 1 else -ENOENT)
                && Taken(old(bitmap[..]), bitmap[..], [block]) && (forall k :: 0 <= k < block && k < bitmap.Length ==> old(bitmap[k]))
                && files == if created || recreated then old(files)[path := FileMeta(0, [block])] else old(files)
      ensures forall p :: p in old(files) ==> p in files && Bytes(p) == old(Bytes(p))
    {
      block := 0;
      if path in files {
        return -ENOENT, block;
      }
      var position := FindFreeBlock();
      if position < 0 {
        return -ENOENT, block;
      }
      block := position;
      Occupy(path, position, created || recreated);
      result := if created || directories then 1 else -ENOENT;
    }

    /** `ocuparBloqueLibre`, and the new metadata file if it could be written. */
    method Occupy(path: string, position: nat, listed: bool)
      requires Valid() && path !in files && position < bitmap.Length && !bitmap[position]
      modifies this, bitmap
      ensures Valid()
      ensures Taken(old(bitmap[..]), bitmap[..], [position])
      ensures files == if listed then old(files)[path := FileMeta(0, [position])] else old(files)
      ensures forall p :: p in old(files) ==> p in files && Bytes(p) == old(Bytes(p))
    {
      hide Ownership, Extend, Content, BlocksIn;
      ghost var before := bitmap[..];
      bitmap[position] := true;
      assert bitmap[..] == before[position := true];
      if listed {
        FileGrows(before, bitmap[..], files, owner, path, FileMeta(0, [position]), [position]);
        owner := Extend(owner, path, 0, [position]);
        files := files[path := FileMeta(0, [position])];
      } else {
        MoreMarked(before, bitmap[..], files, owner);
      }
    }

    /** The writing loop of `guardarDatos`.  A copy stops at the end of its block. */
    method WriteBlocks(blocks: seq<nat>, offset: nat, buffer: seq<byte>)
      requires blockSize > 0 && BlocksIn(store[..], blocks, blockSize) && NoDuplicates(blocks)
      requires offset + |buffer| <= |blocks| * blockSize
      modifies store
      ensures WrittenTo(old(store[..]), store[..], blocks, blockSize, offset, buffer, |buffer|)
    {
      ghost var before := store[..];
      NothingWritten(before, blocks, blockSize, offset, buffer);
      hide FileByte, NoDuplicates, WrittenTo, Overlay;
      var index := offset / blockSize;
      var start := offset - index * blockSize;
      assert 0 <= start < blockSize && index >= 0 by { assert offset == index * blockSize + offset % blockSize; }
      var sizeAux: int := |buffer|;
      ghost var done := 0;
      while sizeAux > 0
        invariant 0 <= index && 0 <= start < blockSize
        invariant 0 <= done <= |buffer| && done == if sizeAux > 0 then |buffer| - sizeAux else |buffer|
        invariant sizeAux > 0 ==> index * blockSize + start == offset + done
        invariant WrittenTo(before, store[..], blocks, blockSize, offset, buffer, done)
        decreases sizeAux
      {
        EndInsideBlocks(offset + |buffer|, blockSize, index, start, |blocks|);
        WrittenShape(before, store[..], blocks, blockSize, offset, buffer, done, index);
        var bytesToWrite := if sizeAux <= blockSize then sizeAux else blockSize;
        var n := if bytesToWrite <= blockSize - start then bytesToWrite else blockSize - start;
        ghost var now := store[..];
        WrittenMore(before, now, blocks, blockSize, offset, buffer, done, index, start, n);
        var from := |buffer| - sizeAux;
        store[blocks[index]] := Overlay(store[blocks[index]], start, buffer[from..from + n]);
        assert store[..] == now[blocks[index] := store[blocks[index]]];
        done := done + n;
        assert (index + 1) * blockSize == index * blockSize + blockSize;
        sizeAux := sizeAux - (blockSize - start);
        start := 0;
        index := index + 1;
      }
    }

    /** `guardarDatos`: lays the buffer over the file at `offset`, or changes nothing. */
    method SaveData(path: string, offset: nat, buffer: seq<byte>) returns (result: int, ghost hole: seq<byte>)
      requires Valid()
      modifies this, bitmap, store
      ensures Valid()
      ensures result ==
              if offset + |buffer| >= store.Length * blockSize then -ENOSPC
              else if |buffer| == 0 || path !in old(files) then -ENOENT
              else if MoreBlocks(offset + |buffer|, |old(files)[path].blocks|, blockSize) > old(Sum(bitmap[..], ClearWeight))
              then -ENOSPC else 1
      ensures result != 1 ==> files == old(files) && bitmap[..] == old(bitmap[..]) && store[..] == old(store[..])
      ensures files.Keys == old(files.Keys)
      ensures forall p :: p in files && p != path ==> files[p] == old(files)[p] && Bytes(p) == old(Bytes(p))
      ensures result == 1 ==>
                && |hole| == (if offset > old(files)[path].size then offset - old(files)[path].size else 0)
                && Bytes(path) == Overlaid(old(Bytes(path)), offset, buffer, hole)
                && old(files)[path].blocks <= files[path].blocks
                && Taken(old(bitmap[..]), bitmap[..], files[path].blocks[|old(files)[path].blocks|..])
                && LowestFirst(old(bitmap[..]), files[path].blocks[|old(files)[path].blocks|..])
      // in the blocks of the file nothing but the buffer is written, so a gap shows what they
      // held, and no other block changes
      ensures result == 1 ==>
                && HeldBefore(old(store[..]), files[path].blocks, blockSize, old(files)[path].size, hole)
                && WrittenTo(old(store[..]), store[..], files[path].blocks, blockSize, offset, buffer, |buffer|)
    {
      hide HeldBefore, WrittenTo, LowestFirst, Taken, Ownership, SizesOk, MoreBlocks;
      hole := [];
      if offset + |buffer| >= store.Length * blockSize {
        return -ENOSPC, hole;
      }
      if |buffer| == 0 {
        return -ENOENT, hole;
      }
      if path !in files {
        return -ENOENT, hole;
      }
      ClearBitExists(bitmap[..]);
      var archivo := files[path];
      var newBlocks := MoreBlocks(offset + |buffer|, |archivo.blocks|, blockSize);
      if newBlocks > 0 {
        var enough := HasFreeBlocks(newBlocks);
        if !enough {
          return -ENOSPC, hole;
        }
      }
      hole := Commit(path, offset, buffer, newBlocks);
      result := 1;
    }

    /** The part of `guardarDatos` that changes something. */
    method Commit(path: string, offset: nat, buffer: seq<byte>, newBlocks: nat) returns (ghost hole: seq<byte>)
      requires Valid() && path in files && |buffer| > 0
      requires newBlocks == MoreBlocks(offset + |buffer|, |files[path].blocks|, blockSize)
      requires newBlocks <= Sum(bitmap[..], ClearWeight)
      modifies this, bitmap, store
      ensures Valid()
      ensures files.Keys == old(files.Keys)
      ensures forall p :: p in files && p != path ==> files[p] == old(files)[p] && Bytes(p) == old(Bytes(p))
      ensures |hole| == (if offset > old(files)[path].size then offset - old(files)[path].size else 0)
      ensures Bytes(path) == Overlaid(old(Bytes(path)), offset, buffer, hole)
      ensures old(files)[path].blocks <= files[path].blocks
      ensures Taken(old(bitmap[..]), bitmap[..], files[path].blocks[|old(files)[path].blocks|..])
      ensures LowestFirst(old(bitmap[..]), files[path].blocks[|old(files)[path].blocks|..])
      ensures HeldBefore(old(store[..]), files[path].blocks, blockSize, old(files)[path].size, hole)
      ensures WrittenTo(old(store[..]), store[..], files[path].blocks, blockSize, offset, buffer, |buffer|)
    {
      ghost var bits, store0, files0 := bitmap[..], store[..], files;
      var archivo := files[path];
      FileFits(path);
      CountStaysRight(archivo.size, offset + |buffer|, |archivo.blocks|, blockSize);
      hide Ownership, FileByte, BlocksIn, NoDuplicates, MoreBlocks, BlocksFor, Content, Overlaid, WrittenTo, Extend, Sum, Taken, LowestFirst, HeldBefore;
      var taken := TakeBlocks(newBlocks);
      var blocks := archivo.blocks + taken;
      GrownList(bits, bitmap[..], archivo.blocks, taken);
      GrownIn(store0, bits, bitmap[..], archivo.blocks, taken, blockSize);
      WriteBlocks(blocks, offset, buffer);
      hole := ContentOverlaid(store0, store[..], archivo, taken, blockSize, offset, buffer);
      forall p | p in files0 && p != path
        ensures BlocksIn(store[..], files0[p].blocks, blockSize) && BlocksIn(store0, files0[p].blocks, blockSize)
        ensures files0[p].size <= |files0[p].blocks| * blockSize
        ensures Content(store[..], files0[p], blockSize) == Content(store0, files0[p], blockSize)
      {
        OthersKept(bits, bitmap[..], store0, store[..], files0, owner, path, taken, blockSize, offset, buffer, p);
      }
      WrittenSizes(store0, store[..], blocks, blockSize, offset, buffer, |buffer|);
      ListFile(path, FileMeta(if offset + |buffer| > archivo.size then offset + |buffer| else archivo.size, blocks), bits, taken);
    }

    /** `metadataFS_write` */
    method ListFile(path: string, meta: FileMeta, ghost bits: seq<bool>, ghost taken: seq<nat>)
      requires path in files && Ownership(bits, files, owner) && Taken(bits, bitmap[..], taken)
      requires meta.blocks == files[path].blocks + taken
      requires blockSize > 0 && SizesOk(files, blockSize) && |meta.blocks| == BlocksFor(meta.size, blockSize)
      modifies this`files, this`owner
      ensures files == old(files)[path := meta]
      ensures Ownership(bitmap[..], files, owner) && SizesOk(files, blockSize)
    {
      FileGrows(bits, bitmap[..], files, owner, path, meta, taken);
      hide Ownership, Taken, Extend, BlocksFor;
      owner := Extend(owner, path, |files[path].blocks|, taken);
      files := files[path := meta];
    }

    /** `obtenerDatos`: the slice of the file from `offset` on, clipped at its size. */
    method ReadData(path: string, offset: nat, size: nat) returns (result: int, buf: seq<byte>)
      requires Valid()
      ensures path !in files ==> result == -ENOENT
      ensures path in files && offset > files[path].size ==> result == -1
      ensures path in files && offset <= files[path].size ==>
                && result == (if size <= files[path].size - offset then size else files[path].size - offset)
                && buf == Bytes(path)[offset..offset + result]
    {
      buf := [];
      if path !in files {
        return -ENOENT, buf;
      }
      var fileSize, blocks: seq<nat> := files[path].size, files[path].blocks;
      var iSize: nat := size;
      if offset == 0 && iSize <= fileSize {
      } else if offset == 0 && iSize > fileSize {
        iSize := fileSize;
      } else if offset > 0 && offset <= fileSize && iSize + offset == fileSize {
      } else if offset > 0 && offset <= fileSize && iSize + offset > fileSize {
        iSize := fileSize - offset;
      } else if offset > 0 && offset <= fileSize && iSize + offset < fileSize {
      } else {
        return -1, buf;
      }
      FileFits(path);
      buf := ReadBlocks(blocks, fileSize, offset, iSize);
      assert buf == Bytes(path)[offset..offset + iSize];
      result := iSize;
    }

    /** The block after `index` blocks, or -1 (`avanzarBloque`). */
    function BlockAt(blocks: seq<nat>, index: nat): int {
      if |blocks| > index then blocks[index] else -1
    }

    /** The reading loop of `obtenerDatos`.  In the block where the file ends the source
        advances by less than it copied; the loop still stops, because no block follows. */
    method ReadBlocks(blocks: seq<nat>, fileSize: nat, offset: nat, iSize: nat) returns (buf: seq<byte>)
      requires blockSize > 0 && BlocksIn(store[..], blocks, blockSize)
      requires |blocks| == BlocksFor(fileSize, blockSize) && fileSize <= |blocks| * blockSize
      requires offset + iSize <= fileSize
      ensures |buf| == iSize
      ensures forall p :: 0 <= p < iSize ==> buf[p] == FileByte(store[..], blocks, blockSize, offset + p)
    {
      NothingCopied(store[..], blocks, blockSize, offset, seq(iSize, _ => 0));
      hide FileByte, BlocksFor, Overlay, BlocksIn, CopiedUpTo;
      var index := offset / blockSize;
      var block := BlockAt(blocks, index);
      var start := offset - index * blockSize;
      assert 0 <= start < blockSize && index >= 0 by { assert offset == index * blockSize + offset % blockSize; }
      buf := seq(iSize, _ => 0);
      var done := 0;
      ghost var copied := 0;
      while block != -1 && iSize - done > 0 && fileSize - done - offset > 0
        invariant 0 <= index && block == BlockAt(blocks, index) && |buf| == iSize
        invariant 0 <= copied <= iSize && CopiedUpTo(store[..], blocks, blockSize, offset, buf, copied)
        invariant copied == iSize || (done == copied && 0 <= start < blockSize && index * blockSize + start == offset + done)
        invariant copied == iSize ==> block == -1 || done == iSize
        decreases |blocks| - index
      {
        assert done == copied;
        var n := ReadStep(fileSize, iSize, offset, done, start);
        CopyChunk(store[..], blocks, blockSize, offset, buf, done, index, start, n);
        buf := Overlay(buf, done, store[block][start..start + n]);
        copied := done + n;
        if fileSize - done - offset >= blockSize - start {
          done := done + n;
        } else {
          NoBlockAfter(fileSize, blockSize, index, start, offset + done, |blocks|);
          done := done + (iSize - done - offset);
        }
        assert (index + 1) * blockSize == index * blockSize + blockSize;
        index := index + 1;
        block := BlockAt(blocks, index);
        start := 0;
      }
      if copied != iSize {
        EndInsideBlocks(fileSize, blockSize, index, start, |blocks|);
        assert false;
      }
      AllCopied(store[..], blocks, blockSize, offset, buf);
    }

    /** How many bytes one turn of the reading loop copies. */
    method ReadStep(fileSize: nat, iSize: nat, offset: nat, done: nat, start: nat) returns (n: nat)
      requires done < iSize && offset + iSize <= fileSize && start < blockSize
      ensures n == if iSize - done <= blockSize - start then iSize - done else blockSize - start
      ensures fileSize - done - offset < blockSize - start ==> n == iSize - done
    {
      if fileSize - done - offset >= blockSize - start {
        if iSize - done >= blockSize - start {
          n := blockSize - start;
        } else {
          n := iSize - done;
        }
      } else {
        n := iSize - done;
      }
    }
  }

  /** The buffer holds the file's bytes from `offset` on, as far as `copied`. */
  ghost predicate CopiedUpTo(store: seq<seq<byte>>, blocks: seq<nat>, blockSize: nat, offset: nat,
                             buf: seq<byte>, copied: nat)
  {
    && blockSize > 0 && BlocksIn(store, blocks, blockSize)
    && copied <= |buf| && (copied > 0 ==> offset + copied <= |blocks| * blockSize)
    && forall p :: 0 <= p < copied ==> buf[p] == FileByte(store, blocks, blockSize, offset + p)
  }

  lemma NothingCopied(store: seq<seq<byte>>, blocks: seq<nat>, blockSize: nat, offset: nat, buf: seq<byte>)
    requires blockSize > 0 && BlocksIn(store, blocks, blockSize)
    ensures CopiedUpTo(store, blocks, blockSize, offset, buf, 0)
  {
  }

  lemma AllCopied(store: seq<seq<byte>>, blocks: seq<nat>, blockSize: nat, offset: nat, buf: seq<byte>)
    requires CopiedUpTo(store, blocks, blockSize, offset, buf, |buf|)
    ensures blockSize > 0 && BlocksIn(store, blocks, blockSize) && (|buf| > 0 ==> offset + |buf| <= |blocks| * blockSize)
    ensures forall p :: 0 <= p < |buf| ==> buf[p] == FileByte(store, blocks, blockSize, offset + p)
  {
  }

  lemma CopyChunk(store: seq<seq<byte>>, blocks: seq<nat>, blockSize: nat, offset: nat,
                  buf: seq<byte>, done: nat, index: nat, start: nat, n: nat)
    requires CopiedUpTo(store, blocks, blockSize, offset, buf, done) && index < |blocks|
    requires index * blockSize + start == offset + done && start + n <= blockSize && done + n <= |buf|
    ensures blocks[index] < |store| && |store[blocks[index]]| == blockSize
    ensures CopiedUpTo(store, blocks, blockSize, offset,
                       Overlay(buf, done, store[blocks[index]][start..start + n]), done + n)
  {
    ChunkOfFile(store, blocks, blockSize, index, start, n);
    hide FileByte, BlocksIn;
  }

  /** The file ends in block `index`, so that block is the last one. */
  lemma NoBlockAfter(fileSize: nat, blockSize: nat, index: nat, start: nat, position: nat, count: nat)
    requires blockSize > 0 && start < blockSize && count == BlocksFor(fileSize, blockSize)
    requires index * blockSize + start == position < fileSize && fileSize - position < blockSize - start
    ensures count <= index + 1
  {
    CeilDivBounds(fileSize, blockSize);
    assert (index + 1) * blockSize == index * blockSize + blockSize;
    if count > index + 1 {
      LaterPageStartsAfter(index + 1, count, blockSize);
    }
  }

  /** A position inside the file lies in one of its blocks. */
  lemma EndInsideBlocks(fileSize: nat, blockSize: nat, index: nat, start: nat, count: nat)
    requires index * blockSize + start < fileSize <= count * blockSize && start < blockSize
    ensures index < count
  {
    if index >= count {
      if index > count { LaterPageStartsAfter(count, index, blockSize); }
    }
  }

  lemma SumSplit(bits: seq<bool>, i: nat)
    requires i <= |bits|
    ensures Sum(bits, ClearWeight) >= Sum(bits[..i], ClearWeight)
  {
    assert bits == bits[..i] + bits[i..];
    SumOfParts(bits[..i], bits[i..]);
  }

  lemma {:induction false} SumOfParts(a: seq<bool>, b: seq<bool>)
    ensures Sum(a + b, ClearWeight) == Sum(a, ClearWeight) + Sum(b, ClearWeight)
    ensures Sum(b, ClearWeight) >= 0
  {
    SumNonNegative(b, ClearWeight);
    if a == [] { assert a + b == b; } else {
      assert (a + b)[1..] == a[1..] + b;
      SumOfParts(a[1..], b);
    }
  }

  lemma ClearBitExists(bitmap: seq<bool>)
    ensures Sum(bitmap, ClearWeight) >= 0
    ensures Sum(bitmap, ClearWeight) > 0 <==> exists k :: 0 <= k < |bitmap| && !bitmap[k]
  {
    SumNonNegative(bitmap, ClearWeight);
    if k :| 0 <= k < |bitmap| && !bitmap[k] {
      assert ClearWeight(bitmap[k]) > 0;
    }
  }
}
