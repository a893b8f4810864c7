/** Disk fragmenter (9/day9.py). The dense disk map alternates file and free-space lengths;
    it is expanded into one entry per block (a file id, or the free marker -1) and into a list
    of spans (id, size). Part one moves file blocks one at a time from the right end into the
    leftmost free block; part two moves whole files, rightmost first, into the leftmost free
    span large enough to hold them, then merges neighbouring free spans. Each layout is scored
    by the sum of position * file id over file blocks. */
module DiskCompaction {

  const Free: int := -1

  /** A run of blocks: a file id, or Free, and its length. */
  datatype Span = Span(id: int, size: nat)

  function Repeat(x: int, n: nat): (r: seq<int>)
    ensures |r| == n && forall k :: 0 <= k < n ==> r[k] == x
  {
    if n == 0 then [] else Repeat(x, n - 1) + [x]
  }

  /** The blocks of a list of spans, left to right. */
  function Flatten(spans: seq<Span>): seq<int>
  {
    if spans == [] then [] else Flatten(spans[..|spans| - 1]) + Repeat(spans[|spans| - 1].id, spans[|spans| - 1].size)
  }

  lemma {:induction false} FlattenAppend(a: seq<Span>, b: seq<Span>)
    ensures Flatten(a + b) == Flatten(a) + Flatten(b)
    decreases |b|
  {
    if b == [] {
      assert a + b == a;
    } else {
      assert (a + b)[..|a + b| - 1] == a + b[..|b| - 1];
      FlattenAppend(a, b[..|b| - 1]);
    }
  }

  function Sum(s: seq<nat>): nat
  {
    if s == [] then 0 else Sum(s[..|s| - 1]) + s[|s| - 1]
  }

  function TotalSize(spans: seq<Span>): nat
  {
    if spans == [] then 0 else TotalSize(spans[..|spans| - 1]) + spans[|spans| - 1].size
  }

  /** The ids of the file spans, in order. */
  function FileIds(spans: seq<Span>): seq<int>
  {
    if spans == [] then []
    else FileIds(spans[..|spans| - 1]) + (if spans[|spans| - 1].id == Free then [] else [spans[|spans| - 1].id])
  }

  // ---- Expansion of the dense map ----

  /** The expansion after a prefix of the dense map: blocks, spans, and the next file id. */
  datatype Expansion = Expansion(blocks: seq<int>, spans: seq<Span>, nextId: nat)

  /** Digits at even positions are files and take consecutive ids; digits at odd positions
      are free space; a zero digit is skipped and does not use up an id. */
  function Expand(digits: seq<nat>): Expansion
  {
    if digits == [] then Expansion([], [], 0)
    else
      var e := Expand(digits[..|digits| - 1]);
      var i := |digits| - 1;
      var num := digits[i];
      if num == 0 then e
      else if i % 2 == 0 then Expansion(e.blocks + Repeat(e.nextId, num), e.spans + [Span(e.nextId, num)], e.nextId + 1)
      else Expansion(e.blocks + Repeat(Free, num), e.spans + [Span(Free, num)], e.nextId)
  }

  /** The expansion loop. */
  method ExpandDiskMap(denseDiskMap: seq<nat>) returns (expandedDiskMap: seq<int>, unfragmentedDiskMap: seq<Span>)
    ensures expandedDiskMap == Expand(denseDiskMap).blocks
    ensures unfragmentedDiskMap == Expand(denseDiskMap).spans
  {
    expandedDiskMap := [];
    unfragmentedDiskMap := [];
    var currentId := 0;
    var i := 0;
    while i < |denseDiskMap|
      invariant 0 <= i <= |denseDiskMap|
      invariant Expand(denseDiskMap[..i]) == Expansion(expandedDiskMap, unfragmentedDiskMap, currentId)
    {
      assert denseDiskMap[..i + 1][..i] == denseDiskMap[..i];
      var num := denseDiskMap[i];
      if num == 0 {
        i := i + 1;
        continue;
      }
      var isFileMarker := i % 2 == 0;
      if isFileMarker {
        unfragmentedDiskMap := unfragmentedDiskMap + [Span(currentId, num)];
        expandedDiskMap := expandedDiskMap + Repeat(currentId, num);
        currentId := currentId + 1;
      } else {
        unfragmentedDiskMap := unfragmentedDiskMap + [Span(Free, num)];
        expandedDiskMap := expandedDiskMap + Repeat(Free, num);
      }
      i := i + 1;
    }
    assert denseDiskMap[..i] == denseDiskMap;
  }

  /** The two expansions agree: the spans flatten to the blocks, which number the sum of the
      digits; no span is empty; and the file spans carry the ids 0, 1, 2, ... in order. */
  lemma ExpansionConsistent(digits: seq<nat>)
    ensures Flatten(Expand(digits).spans) == Expand(digits).blocks
    ensures |Expand(digits).blocks| == Sum(digits)
    ensures forall k :: 0 <= k < |Expand(digits).spans| ==> Expand(digits).spans[k].size > 0
    ensures FileIds(Expand(digits).spans) == seq(Expand(digits).nextId, k => k)
  {
    ExpansionFlattens(digits);
    ExpansionSpansNonEmpty(digits);
    ExpansionNumbersFiles(digits);
  }

  lemma {:induction false} ExpansionFlattens(digits: seq<nat>)
    ensures Flatten(Expand(digits).spans) == Expand(digits).blocks
    ensures |Expand(digits).blocks| == Sum(digits)
  {
    if digits != [] {
      var prefix := digits[..|digits| - 1];
      ExpansionFlattens(prefix);
      var e := Expand(prefix);
      var i := |digits| - 1;
      if digits[i] != 0 {
        var s := if i % 2 == 0 then Span(e.nextId, digits[i]) else Span(Free, digits[i]);
        assert (e.spans + [s])[..|e.spans|] == e.spans;
      }
    }
  }

  lemma {:induction false} ExpansionSpansNonEmpty(digits: seq<nat>)
    ensures forall k :: 0 <= k < |Expand(digits).spans| ==> Expand(digits).spans[k].size > 0
  {
    if digits != [] {
      ExpansionSpansNonEmpty(digits[..|digits| - 1]);
    }
  }

  lemma {:induction false} ExpansionNumbersFiles(digits: seq<nat>)
    ensures FileIds(Expand(digits).spans) == seq(Expand(digits).nextId, k => k)
  {
    if digits != [] {
      var prefix := digits[..|digits| - 1];
      ExpansionNumbersFiles(prefix);
      var e := Expand(prefix);
      var i := |digits| - 1;
      if digits[i] == 0 {
        assert Expand(digits) == e;
      } else if i % 2 == 0 {
        var spans := e.spans + [Span(e.nextId, digits[i])];
        assert Expand(digits).spans == spans && Expand(digits).nextId == e.nextId + 1;
        assert spans[..|e.spans|] == e.spans;
        assert FileIds(spans) == FileIds(e.spans) + [e.nextId];
        IdsExtend(e.nextId);
      } else {
        var spans := e.spans + [Span(Free, digits[i])];
        assert Expand(digits).spans == spans && Expand(digits).nextId == e.nextId;
        assert spans[..|e.spans|] == e.spans;
        assert FileIds(spans) == FileIds(e.spans);
      }
    }
  }

  lemma IdsExtend(n: nat)
    ensures seq(n, k => k) + [n] == seq(n + 1, k => k)
  {
  }

  // ---- Part one: block-by-block compaction ----

  /** No file block lies to the right of a free block. */
  predicate Compacted(blocks: seq<int>)
  {
    forall p, q :: 0 <= p < q < |blocks| && blocks[p] == Free ==> blocks[q] == Free
  }

  /** The leftmost free block at or after k, or |s| when there is none. */
  function FirstFree(s: seq<int>, k: nat): (r: nat)
    requires k <= |s|
    ensures k <= r <= |s| && (r < |s| ==> s[r] == Free)
    ensures forall m :: k <= m < r ==> s[m] != Free
    decreases |s| - k
  {
    if k == |s| || s[k] == Free then k else FirstFree(s, k + 1)
  }

  /** The rightmost file block before k, or -1 when there is none. */
  function LastFile(s: seq<int>, k: nat): (r: int)
    requires k <= |s|
    ensures -1 <= r < k && (r >= 0 ==> s[r] != Free)
    ensures forall m :: r < m < k ==> s[m] == Free
  {
    if k == 0 then -1 else if s[k - 1] != Free then k - 1 else LastFile(s, k - 1)
  }

  /** Part one's layout: while a free block lies left of a file block, the rightmost file
      block moves into the leftmost free block and leaves a free block behind. */
  function Compact(s: seq<int>): seq<int>
    decreases |s| - FirstFree(s, 0)
  {
    var i, j := FirstFree(s, 0), LastFile(s, |s|);
    if i < j then
      var t := s[i := s[j]][j := Free];
      assert FirstFree(t, 0) > i by {
        assert forall m :: 0 <= m <= i ==> t[m] != Free;
      }
      Compact(t)
    else s
  }

  /** Compaction keeps the blocks, leaves no file block right of a free block, and leaves a
      compacted layout alone. */
  lemma CompactProperties(s: seq<int>)
    ensures multiset(Compact(s)) == multiset(s)
    ensures Compacted(Compact(s))
    ensures Compacted(s) ==> Compact(s) == s
    decreases |s| - FirstFree(s, 0)
  {
    var i, j := FirstFree(s, 0), LastFile(s, |s|);
    if i < j {
      var t := s[i := s[j]][j := Free];
      assert forall m :: 0 <= m <= i ==> t[m] != Free;
      CompactProperties(t);
      assert t == s[i := s[j]][j := s[i]];
    } else {
      forall p, q | 0 <= p < q < |s| && s[p] == Free ensures s[q] == Free {
        assert i <= p;
      }
    }
  }

  /** The inner search of the compaction: the rightmost file block in (lo, hi], if any. */
  method FindFileBlock(a: array<int>, lo: int, hi: int) returns (found: bool, j: int)
    requires 0 <= lo <= hi < a.Length
    ensures found ==> lo < j <= hi && a[j] != Free && forall k :: j < k <= hi ==> a[k] == Free
    ensures !found ==> forall k :: lo < k <= hi ==> a[k] == Free
  {
    j := hi;
    while j > lo
      invariant lo <= j <= hi
      invariant forall k :: j < k <= hi ==> a[k] == Free
    {
      if a[j] != Free {
        return true, j;
      }
      j := j - 1;
    }
    return false, j;
  }

  /** Exchanging two blocks keeps the multiset of blocks. */
  method SwapBlocks(a: array<int>, i: int, j: int)
    requires 0 <= i < a.Length && 0 <= j < a.Length
    modifies a
    ensures a[..] == old(a[..])[i := old(a[j])][j := old(a[i])]
    ensures multiset(a[..]) == old(multiset(a[..]))
  {
    a[i], a[j] := a[j], a[i];
  }

  /** One turn of the compaction loop at a free block `i`: when the block at `r` is free, the
      rightmost file block left of it and right of `i` takes its place, and the loop stops when
      there is none; otherwise the file block at `r` is swapped into position `i`. */
  method FillFreeBlock(a: array<int>, i: int, r: int) returns (stop: bool, r': int)
    requires 0 <= i < a.Length && a[i] == Free && 0 <= r < a.Length
    requires forall k :: r < k < a.Length ==> a[k] == Free
    requires a[r] != Free ==> r == a.Length - 1
    requires forall k :: 0 <= k < i ==> a[k] != Free
    modifies a
    ensures stop ==> a[..] == old(a[..]) && forall k :: i <= k < a.Length ==> a[k] == Free
    ensures !stop ==> i < r' < a.Length && old(a[r']) != Free
    ensures !stop ==> a[..] == old(a[..])[i := old(a[r'])][r' := Free]
    ensures !stop ==> forall k :: r' <= k < a.Length ==> a[k] == Free
    ensures !stop ==> forall k :: 0 <= k <= i ==> a[k] != Free
    ensures multiset(a[..]) == old(multiset(a[..]))
    ensures Compact(a[..]) == Compact(old(a[..]))
  {
    r' := r;
    if a[r] == Free {
      if r < i {
        return true, r';
      }
      var found, j := FindFileBlock(a, i, r);
      if !found {
        return true, r';
      }
      r' := j;
    }
    MoveLastFile(a, i, r');
    return false, r';
  }

  /** The swap of one turn: the rightmost file block j goes into the leftmost free block i,
      which is the first move of Compact. */
  method MoveLastFile(a: array<int>, i: int, j: int)
    requires 0 <= i < j < a.Length && a[i] == Free && a[j] != Free
    requires forall k :: 0 <= k < i ==> a[k] != Free
    requires forall k :: j < k < a.Length ==> a[k] == Free
    modifies a
    ensures a[..] == old(a[..])[i := old(a[j])][j := Free]
    ensures forall k :: j <= k < a.Length ==> a[k] == Free
    ensures forall k :: 0 <= k <= i ==> a[k] != Free
    ensures multiset(a[..]) == old(multiset(a[..]))
    ensures Compact(a[..]) == Compact(old(a[..]))
  {
    ghost var before := a[..];
    SwapBlocks(a, i, j);
    CompactStep(before, i, j);
  }

  /** The compaction loop: each free block, left to right, receives the rightmost file block;
      it stops once no file block remains to the right of the current free block. The array
      ends as Compact leaves it. */
  method CompactBlocks(a: array<int>)
    modifies a
    ensures a[..] == Compact(old(a[..]))
  {
    ghost var target := Compact(a[..]);
    var rightmostFileIndex := a.Length - 1;
    var i := 0;
    while i < a.Length
      invariant 0 <= i <= a.Length
      invariant -1 <= rightmostFileIndex < a.Length && (a.Length > 0 ==> 0 <= rightmostFileIndex)
      invariant forall k :: 0 <= k < i ==> a[k] != Free
      invariant forall k :: rightmostFileIndex < k < a.Length ==> a[k] == Free
      invariant a.Length > 0 && a[rightmostFileIndex] != Free ==> rightmostFileIndex == a.Length - 1
      invariant Compact(a[..]) == target
    {
      if a[i] != Free {
        i := i + 1;
        continue;
      }
      var stop, j := FillFreeBlock(a, i, rightmostFileIndex);
      if stop {
        break;
      }
      rightmostFileIndex := j;
      i := i + 1;
    }
    assert forall k :: i <= k < a.Length ==> a[k] == Free;
    CompactProperties(a[..]);
  }

  /** One swap of the loop is the first move of Compact: i is the leftmost free block and j
      the rightmost file block. */
  lemma CompactStep(s: seq<int>, i: nat, j: nat)
    requires i < j < |s| && s[i] == Free && s[j] != Free
    requires forall k :: 0 <= k < i ==> s[k] != Free
    requires forall k :: j < k < |s| ==> s[k] == Free
    ensures Compact(s[i := s[j]][j := Free]) == Compact(s)
  {
    assert FirstFree(s, 0) == i && LastFile(s, |s|) == j;
  }

  /** The sum of position * id over the file blocks, positions counted from `start`. */
  function BlockChecksumFrom(blocks: seq<int>, start: int): int
  {
    if blocks == [] then 0
    else
      var last := blocks[|blocks| - 1];
      BlockChecksumFrom(blocks[..|blocks| - 1], start) + (if last == Free then 0 else (start + |blocks| - 1) * last)
  }

  /** The part-one checksum loop. */
  method BlockChecksum(blocks: seq<int>) returns (checksum: int)
    ensures checksum == BlockChecksumFrom(blocks, 0)
  {
    checksum := 0;
    var i := 0;
    while i < |blocks|
      invariant 0 <= i <= |blocks|
      invariant checksum == BlockChecksumFrom(blocks[..i], 0)
    {
      assert blocks[..i + 1][..i] == blocks[..i];
      if blocks[i] == Free {
        i := i + 1;
        continue;
      }
      checksum := checksum + i * blocks[i];
      i := i + 1;
    }
    assert blocks[..i] == blocks;
  }

  lemma {:induction false} BlockChecksumAppend(a: seq<int>, b: seq<int>, start: int)
    ensures BlockChecksumFrom(a + b, start) == BlockChecksumFrom(a, start) + BlockChecksumFrom(b, start + |a|)
    decreases |b|
  {
    if b == [] {
      assert a + b == a;
    } else {
      assert (a + b)[..|a + b| - 1] == a + b[..|b| - 1];
      BlockChecksumAppend(a, b[..|b| - 1], start);
    }
  }

  // ---- Part two: whole-file moves over the span list ----

  datatype Option<T> = None | Some(value: T)

  predicate Fits(spans: seq<Span>, j: int, size: nat)
    requires 0 <= j < |spans|
  {
    spans[j].id == Free && spans[j].size >= size
  }

  /** The leftmost free span in [from, i) that can hold `size` blocks. */
  function FirstFit(spans: seq<Span>, from: nat, i: nat, size: nat): (r: Option<nat>)
    requires i <= |spans|
    ensures r.Some? ==> (from <= r.value < i && Fits(spans, r.value, size)
      && forall k :: from <= k < r.value ==> !Fits(spans, k, size))
    ensures r.None? ==> forall k :: from <= k < i ==> !Fits(spans, k, size)
    decreases i - from
  {
    if from >= i then None
    else if Fits(spans, from, size) then Some(from)
    else FirstFit(spans, from + 1, i, size)
  }

  /** A file span that has not been moved yet. */
  predicate Movable(spans: seq<Span>, moved: set<int>, i: int)
    requires 0 <= i < |spans|
  {
    spans[i].id != Free && spans[i].id !in moved
  }

  /** The move unfragment_one_file makes: the rightmost unmoved file below `upto` that has a
      large enough free span to its left, with the leftmost such span. */
  function Candidate(spans: seq<Span>, moved: set<int>, upto: nat): (r: Option<(nat, nat)>)
    requires upto <= |spans|
    ensures r.Some? ==>
      var (i, j) := r.value;
      && j < i < upto && Movable(spans, moved, i) && FirstFit(spans, 0, i, spans[i].size) == Some(j)
      && forall k :: i < k < upto && Movable(spans, moved, k) ==> FirstFit(spans, 0, k, spans[k].size).None?
    ensures r.None? ==> forall k :: 0 <= k < upto && Movable(spans, moved, k) ==> FirstFit(spans, 0, k, spans[k].size).None?
  {
    if upto == 0 then None
    else
      var i := upto - 1;
      if !Movable(spans, moved, i) then Candidate(spans, moved, i)
      else
        match FirstFit(spans, 0, i, spans[i].size)
        case Some(j) => Some((i, j))
        case None => Candidate(spans, moved, i)
  }

  /** The file at i takes the place of the free span at j, leaves an equal free span behind,
      and any space left over at j becomes a new free span right after it. */
  function MoveFile(spans: seq<Span>, i: nat, j: nat): seq<Span>
    requires j < i < |spans| && Fits(spans, j, spans[i].size)
  {
    var file := spans[i];
    var differential := spans[j].size - file.size;
    var s := spans[i := Span(Free, file.size)][j := file];
    if differential > 0 then s[..j + 1] + [Span(Free, differential)] + s[j + 1..] else s
  }

  /** The ids of the file spans. */
  function FileIdSet(spans: seq<Span>): set<int>
  {
    set k | 0 <= k < |spans| && spans[k].id != Free :: spans[k].id
  }

  lemma {:induction false} TotalSizeAppend(a: seq<Span>, b: seq<Span>)
    ensures TotalSize(a + b) == TotalSize(a) + TotalSize(b)
    decreases |b|
  {
    if b == [] {
      assert a + b == a;
    } else {
      assert (a + b)[..|a + b| - 1] == a + b[..|b| - 1];
      TotalSizeAppend(a, b[..|b| - 1]);
    }
  }

  lemma TotalSizeUpdate(s: seq<Span>, k: nat, x: Span)
    requires k < |s|
    ensures TotalSize(s[k := x]) == TotalSize(s) - s[k].size + x.size
  {
    assert s == s[..k] + [s[k]] + s[k + 1..];
    assert s[k := x] == s[..k] + [x] + s[k + 1..];
    TotalSizeAppend(s[..k] + [s[k]], s[k + 1..]);
    TotalSizeAppend(s[..k], [s[k]]);
    TotalSizeAppend(s[..k] + [x], s[k + 1..]);
    TotalSizeAppend(s[..k], [x]);
    assert [s[k]][..0] == [] && [x][..0] == [];
  }

  /** Swapping the file into the free span keeps the set of file ids. */
  lemma ExchangeKeepsIds(spans: seq<Span>, i: nat, j: nat)
    requires j < i < |spans| && spans[j].id == Free
    ensures FileIdSet(spans[i := Span(Free, spans[i].size)][j := spans[i]]) == FileIdSet(spans)
  {
    var file := spans[i];
    var s := spans[i := Span(Free, file.size)][j := file];
    forall id | id in FileIdSet(spans) ensures id in FileIdSet(s) {
      var k :| 0 <= k < |spans| && spans[k].id != Free && spans[k].id == id;
      if k == i { assert s[j] == file; } else { assert s[k] == spans[k]; }
    }
    forall id | id in FileIdSet(s) ensures id in FileIdSet(spans) {
      var k :| 0 <= k < |s| && s[k].id != Free && s[k].id == id;
      if k == j { assert spans[i] == file; } else { assert s[k] == spans[k]; }
    }
  }

  /** Inserting a free span after position j keeps the set of file ids. */
  lemma InsertFreeKeepsIds(s: seq<Span>, j: nat, n: nat)
    requires j < |s|
    ensures FileIdSet(s[..j + 1] + [Span(Free, n)] + s[j + 1..]) == FileIdSet(s)
  {
    var m := s[..j + 1] + [Span(Free, n)] + s[j + 1..];
    forall id | id in FileIdSet(m) ensures id in FileIdSet(s) {
      var k :| 0 <= k < |m| && m[k].id != Free && m[k].id == id;
      if k <= j { assert m[k] == s[k]; } else { assert k > j + 1 && m[k] == s[k - 1]; }
    }
    forall id | id in FileIdSet(s) ensures id in FileIdSet(m) {
      var k :| 0 <= k < |s| && s[k].id != Free && s[k].id == id;
      if k <= j { assert m[k] == s[k]; } else { assert m[k + 1] == s[k]; }
    }
  }

  /** Inserting a span adds its size. */
  lemma InsertTotalSize(s: seq<Span>, j: nat, x: Span)
    requires j < |s|
    ensures TotalSize(s[..j + 1] + [x] + s[j + 1..]) == TotalSize(s) + x.size
  {
    assert s == s[..j + 1] + s[j + 1..];
    TotalSizeAppend(s[..j + 1], s[j + 1..]);
    TotalSizeAppend(s[..j + 1] + [x], s[j + 1..]);
    TotalSizeAppend(s[..j + 1], [x]);
    assert [x][..0] == [];
  }

  /** A move keeps the disk's size and its set of files, and puts the file at j. */
  lemma MoveFilePreserves(spans: seq<Span>, i: nat, j: nat)
    requires j < i < |spans| && Fits(spans, j, spans[i].size)
    ensures TotalSize(MoveFile(spans, i, j)) == TotalSize(spans)
    ensures FileIdSet(MoveFile(spans, i, j)) == FileIdSet(spans)
    ensures MoveFile(spans, i, j)[j] == spans[i]
  {
    var file := spans[i];
    var differential := spans[j].size - file.size;
    var t := spans[i := Span(Free, file.size)];
    var s := t[j := file];
    TotalSizeUpdate(spans, i, Span(Free, file.size));
    TotalSizeUpdate(t, j, file);
    ExchangeKeepsIds(spans, i, j);
    if differential > 0 {
      InsertTotalSize(s, j, Span(Free, differential));
      InsertFreeKeepsIds(s, j, differential);
    }
  }

  /** Part two's layout: moves are made, each on the result of the last, until no unmoved file
      has room to its left; the ids moved are recorded. Every move records a file id that is
      on the disk and was not recorded before, and moves keep the set of file ids, so this
      ends. */
  function Defrag(spans: seq<Span>, moved: set<int>): (seq<Span>, set<int>)
    decreases |FileIdSet(spans) - moved|
  {
    match Candidate(spans, moved, |spans|)
    case None => (spans, moved)
    case Some((i, j)) =>
      MoveFilePreserves(spans, i, j);
      assert FileIdSet(MoveFile(spans, i, j)) - (moved + {spans[i].id}) == (FileIdSet(spans) - moved) - {spans[i].id};
      Defrag(MoveFile(spans, i, j), moved + {spans[i].id})
  }

  /** After part two no unmoved file has room to its left, and the disk keeps its size and its
      files. */
  lemma {:induction false} DefragProperties(spans: seq<Span>, moved: set<int>)
    ensures var (s, m) := Defrag(spans, moved);
      && Candidate(s, m, |s|).None?
      && TotalSize(s) == TotalSize(spans) && FileIdSet(s) == FileIdSet(spans)
    decreases |FileIdSet(spans) - moved|
  {
    match Candidate(spans, moved, |spans|)
    case None =>
    case Some((i, j)) =>
      MoveFilePreserves(spans, i, j);
      assert FileIdSet(MoveFile(spans, i, j)) - (moved + {spans[i].id}) == (FileIdSet(spans) - moved) - {spans[i].id};
      DefragProperties(MoveFile(spans, i, j), moved + {spans[i].id});
  }

  /** The inner loop of unfragment_one_file: the spans left of i are scanned from the left for
      a free span of at least `size` blocks. */
  method FindFreeSpan(spans: seq<Span>, i: nat, size: nat) returns (r: Option<nat>)
    requires i <= |spans|
    ensures r == FirstFit(spans, 0, i, size)
  {
    var j := 0;
    while j < i
      invariant 0 <= j <= i
      invariant FirstFit(spans, 0, i, size) == FirstFit(spans, j, i, size)
    {
      var freeSpace := spans[j];
      if freeSpace.id == Free && freeSpace.size >= size {
        return Some(j);
      }
      j := j + 1;
    }
    return None;
  }

  /** The span list of part two together with the ids already moved. */
  class DiskMap {
    var spans: seq<Span>
    var moved: set<int>

    constructor (spans: seq<Span>)
      ensures this.spans == spans && moved == {}
    {
      this.spans := spans;
      moved := {};
    }

    /** unfragment_one_file: scans files from the right; the first unmoved file with a large
        enough free span to its left is moved into the leftmost such span and recorded, and
        False is returned. True means no file can move; nothing changes then. */
    method UnfragmentOneFile() returns (done: bool)
      modifies this
      ensures done <==> Candidate(old(spans), old(moved), |old(spans)|).None?
      ensures done ==> spans == old(spans) && moved == old(moved)
      ensures !done ==>
        var (i, j) := Candidate(old(spans), old(moved), |old(spans)|).value;
        spans == MoveFile(old(spans), i, j) && moved == old(moved) + {old(spans)[i].id}
    {
      var i := |spans|;
      while i > 0
        invariant 0 <= i <= |spans|
        invariant spans == old(spans) && moved == old(moved)
        invariant Candidate(spans, moved, |spans|) == Candidate(spans, moved, i)
      {
        i := i - 1;
        var fragment := spans[i];
        if fragment.id == Free || fragment.id in moved {
          continue;
        }
        var fit := FindFreeSpan(spans, i, fragment.size);
        if fit.Some? {
          MoveInto(i, fit.value);
          return false;
        }
      }
      return true;
    }

    /** The move itself: the file at i goes into the free span at j, its old place becomes
        free, any space left over stays free right after it, and its id is recorded. */
    method MoveInto(i: nat, j: nat)
      requires j < i < |spans| && Fits(spans, j, spans[i].size)
      modifies this
      ensures spans == MoveFile(old(spans), i, j) && moved == old(moved) + {old(spans)[i].id}
    {
      var fragment := spans[i];
      var differential := spans[j].size - fragment.size;
      spans := spans[i := Span(Free, fragment.size)][j := fragment];
      if differential > 0 {
        spans := spans[..j + 1] + [Span(Free, differential)] + spans[j + 1..];
      }
      moved := moved + {fragment.id};
    }

    /** The `while True` loop around unfragment_one_file: the spans and the recorded ids end
        as Defrag leaves them, so no unmoved file has room to its left. */
    method Defragment()
      modifies this
      ensures (spans, moved) == Defrag(old(spans), old(moved))
      ensures Candidate(spans, moved, |spans|).None?
      ensures TotalSize(spans) == old(TotalSize(spans)) && FileIdSet(spans) == old(FileIdSet(spans))
    {
      DefragProperties(spans, moved);
      while true
        invariant Defrag(spans, moved) == Defrag(old(spans), old(moved))
        decreases |FileIdSet(spans) - moved|
      {
        ghost var before, movedBefore := spans, moved;
        var done := UnfragmentOneFile();
        if done {
          return;
        }
        var (i, j) := Candidate(before, movedBefore, |before|).value;
        MoveFilePreserves(before, i, j);
        assert FileIdSet(spans) - moved == (FileIdSet(before) - movedBefore) - {before[i].id};
      }
    }
  }

  // ---- Merging free spans ----

  /** The merge loop's state after a prefix: the spans emitted, and the free size pending. */
  function MergeState(spans: seq<Span>): (seq<Span>, nat)
  {
    if spans == [] then ([], 0)
    else
      var (out, pending) := MergeState(spans[..|spans| - 1]);
      var elem := spans[|spans| - 1];
      if elem.id != Free then
        ((if pending > 0 then out + [Span(Free, pending)] else out) + [elem], 0)
      else (out, pending + elem.size)
  }

  /** Neighbouring free spans merged into one, and zero-size free spans dropped. */
  function Coalesce(spans: seq<Span>): seq<Span>
  {
    var (out, pending) := MergeState(spans);
    if pending != 0 then out + [Span(Free, pending)] else out
  }

  /** The merge loop. */
  method CoalesceFreeSpans(spans: seq<Span>) returns (finalDiskMap: seq<Span>)
    ensures finalDiskMap == Coalesce(spans)
  {
    finalDiskMap := [];
    var currentFreeSpan := Span(Free, 0);
    var k := 0;
    while k < |spans|
      invariant 0 <= k <= |spans|
      invariant MergeState(spans[..k]) == (finalDiskMap, currentFreeSpan.size) && currentFreeSpan.id == Free
    {
      assert spans[..k + 1][..k] == spans[..k];
      var elem := spans[k];
      if elem.id != Free {
        if currentFreeSpan.size > 0 {
          finalDiskMap := finalDiskMap + [currentFreeSpan];
          currentFreeSpan := Span(Free, 0);
        }
        finalDiskMap := finalDiskMap + [elem];
      } else {
        currentFreeSpan := Span(Free, currentFreeSpan.size + elem.size);
      }
      k := k + 1;
    }
    assert spans[..k] == spans;
    if currentFreeSpan.size != 0 {
      finalDiskMap := finalDiskMap + [currentFreeSpan];
    }
  }

  lemma {:induction false} RepeatAppend(x: int, m: nat, n: nat)
    ensures Repeat(x, m) + Repeat(x, n) == Repeat(x, m + n)
  {
  }

  /** No two free spans in a row and no empty free span. */
  predicate WellMerged(spans: seq<Span>)
  {
    && (forall k :: 0 <= k < |spans| - 1 ==> !(spans[k].id == Free && spans[k + 1].id == Free))
    && (forall k :: 0 <= k < |spans| && spans[k].id == Free ==> spans[k].size > 0)
  }

  /** The merge step for a file span: pending free blocks are emitted as one span first. */
  lemma EmitFileStep(out: seq<Span>, pending: nat, elem: Span)
    requires WellMerged(out) && (out != [] ==> out[|out| - 1].id != Free) && elem.id != Free
    ensures var out' := (if pending > 0 then out + [Span(Free, pending)] else out) + [elem];
      && Flatten(out') == Flatten(out) + Repeat(Free, pending) + Repeat(elem.id, elem.size)
      && WellMerged(out') && out'[|out'| - 1].id != Free
  {
    var mid := if pending > 0 then out + [Span(Free, pending)] else out;
    FlattenAppend(out, [Span(Free, pending)]);
    assert [Span(Free, pending)][..0] == [];
    assert Flatten(mid) == Flatten(out) + Repeat(Free, pending);
    FlattenAppend(mid, [elem]);
    assert [elem][..0] == [];
    if pending > 0 {
      WellMergedSnoc(out, Span(Free, pending));
    }
    WellMergedSnoc(mid, elem);
  }

  /** A span added at the end keeps the list well merged unless it is a second free span in a
      row or an empty free span. */
  lemma WellMergedSnoc(out: seq<Span>, x: Span)
    requires WellMerged(out)
    requires out != [] && out[|out| - 1].id == Free ==> x.id != Free
    requires x.id == Free ==> x.size > 0
    ensures WellMerged(out + [x]) && (out + [x])[|out|] == x
  {
    var s := out + [x];
    assert forall k :: 0 <= k < |out| ==> s[k] == out[k];
  }

  lemma {:induction false} MergeStateProperties(spans: seq<Span>)
    ensures var (out, pending) := MergeState(spans);
      && Flatten(out) + Repeat(Free, pending) == Flatten(spans)
      && WellMerged(out) && (out != [] ==> out[|out| - 1].id != Free)
  {
    if spans != [] {
      var prefix := spans[..|spans| - 1];
      MergeStateProperties(prefix);
      var (out, pending) := MergeState(prefix);
      var elem := spans[|spans| - 1];
      assert Flatten(spans) == Flatten(prefix) + Repeat(elem.id, elem.size);
      if elem.id != Free {
        EmitFileStep(out, pending, elem);
        assert Repeat(Free, 0) == [];
      } else {
        PendingGrows(Flatten(out), Flatten(prefix), pending, elem.size);
      }
    }
  }

  /** A free span adds its blocks to the pending free run. */
  lemma PendingGrows(emitted: seq<int>, flat: seq<int>, pending: nat, size: nat)
    requires emitted + Repeat(Free, pending) == flat
    ensures emitted + Repeat(Free, pending + size) == flat + Repeat(Free, size)
  {
    RepeatAppend(Free, pending, size);
    assert emitted + Repeat(Free, pending + size) == (emitted + Repeat(Free, pending)) + Repeat(Free, size);
  }

  /** Merging leaves the blocks exactly as they were, so the disk's size is unchanged, and
      leaves no two free spans side by side and no empty free span. */
  lemma CoalesceProperties(spans: seq<Span>)
    ensures Flatten(Coalesce(spans)) == Flatten(spans)
    ensures WellMerged(Coalesce(spans))
  {
    MergeStateProperties(spans);
    var (out, pending) := MergeState(spans);
    if pending != 0 {
      FlattenAppend(out, [Span(Free, pending)]);
      assert [Span(Free, pending)][..0] == [];
    }
  }

  /** One more block of file id after a prefix and j earlier blocks of it adds its position
      times id to the checksum. */
  lemma ChecksumSnoc(done: seq<int>, id: int, j: nat)
    requires id != Free
    ensures BlockChecksumFrom(done + Repeat(id, j + 1), 0) == BlockChecksumFrom(done + Repeat(id, j), 0) + (|done| + j) * id
  {
    var cur := done + Repeat(id, j);
    assert done + Repeat(id, j + 1) == cur + [id];
    assert (cur + [id])[..|cur|] == cur;
  }

  /** The inner loop of the part-two checksum over one file span. */
  method AddFileSpan(checksum: int, currentIndex: int, id: int, size: nat, ghost done: seq<int>)
    returns (total: int)
    requires currentIndex == |done| && checksum == BlockChecksumFrom(done, 0) && id != Free
    ensures total == BlockChecksumFrom(done + Repeat(id, size), 0)
  {
    total := checksum;
    var j := 0;
    assert done + Repeat(id, 0) == done;
    while j < size
      invariant 0 <= j <= size
      invariant total == BlockChecksumFrom(done + Repeat(id, j), 0)
    {
      ChecksumSnoc(done, id, j);
      total := total + (currentIndex + j) * id;
      j := j + 1;
    }
  }

  /** The part-two checksum loop: a running position advances by every span's size, and each
      block of a file span adds position * id. It is the block checksum of the spans'
      blocks. */
  method SpanChecksum(finalDiskMap: seq<Span>) returns (checksum: int)
    ensures checksum == BlockChecksumFrom(Flatten(finalDiskMap), 0)
  {
    checksum := 0;
    var currentIndex := 0;
    var i := 0;
    while i < |finalDiskMap|
      invariant 0 <= i <= |finalDiskMap|
      invariant currentIndex == |Flatten(finalDiskMap[..i])|
      invariant checksum == BlockChecksumFrom(Flatten(finalDiskMap[..i]), 0)
    {
      var blockId := finalDiskMap[i].id;
      var blockSize := finalDiskMap[i].size;
      ghost var done := Flatten(finalDiskMap[..i]);
      FlattenPrefixSnoc(finalDiskMap, i);
      if blockId == Free {
        FreeSpanScoresNothing(done, blockSize);
      } else {
        checksum := AddFileSpan(checksum, currentIndex, blockId, blockSize, done);
      }
      currentIndex := currentIndex + blockSize;
      i := i + 1;
    }
    assert finalDiskMap[..i] == finalDiskMap;
  }

  /** One more span of the list adds its blocks to the flattened prefix. */
  lemma FlattenPrefixSnoc(s: seq<Span>, i: nat)
    requires i < |s|
    ensures Flatten(s[..i + 1]) == Flatten(s[..i]) + Repeat(s[i].id, s[i].size)
  {
    assert s[..i + 1][..i] == s[..i];
  }

  /** Free blocks after a prefix leave its checksum unchanged. */
  lemma FreeSpanScoresNothing(done: seq<int>, n: nat)
    ensures BlockChecksumFrom(done + Repeat(Free, n), 0) == BlockChecksumFrom(done, 0)
  {
    BlockChecksumAppend(done, Repeat(Free, n), 0);
    FreeBlocksScoreNothing(n, |done|);
  }

  lemma {:induction false} FreeBlocksScoreNothing(n: nat, start: int)
    ensures BlockChecksumFrom(Repeat(Free, n), start) == 0
  {
    if n > 0 {
      FreeBlocksScoreNothing(n - 1, start);
      assert Repeat(Free, n)[..n - 1] == Repeat(Free, n - 1);
    }
  }
}
