/**
  The contiguous memory allocator: an ordered list of blocks that tiles
  the address range `[0, totalSize)`, and an allocation that picks a free
  block by First, Best or Worst Fit and either hands it over whole or
  splits it into a used block followed by a free leftover.
 */
module Memory {
  import opened Lists

  /** A block `[start, start + size)`, free or owned by a process. */
  datatype MemoryBlock = MemoryBlock(start: int, size: int, isFree: bool, processId: Option<string>)

  /** One row of the memory table; the PID of a free block reads `-`. */
  datatype Row = Row(start: int, size: int, free: bool, pid: Option<string>)

  function End(b: MemoryBlock): int {
    b.start + b.size
  }

  /** The blocks lie back to back from `from`, and the last one ends at `to`. */
  ghost predicate Tiles(bs: seq<MemoryBlock>, from: int, to: int)
    decreases |bs|
  {
    if |bs| == 0 then from == to
    else bs[0].start == from && Tiles(bs[1..], End(bs[0]), to)
  }

  /** A block is free exactly when it has no owner. */
  ghost predicate Tagged(bs: seq<MemoryBlock>) {
    forall k :: 0 <= k < |bs| ==> (bs[k].isFree <==> bs[k].processId.None?)
  }

  /** No block is empty or of negative size: the tiling is a partition of the range. */
  ghost predicate Positive(bs: seq<MemoryBlock>) {
    forall k :: 0 <= k < |bs| ==> bs[k].size > 0
  }

  /** The total size of the free blocks. */
  function FreeSpace(bs: seq<MemoryBlock>): int {
    if |bs| == 0 then 0 else (if bs[0].isFree then bs[0].size else 0) + FreeSpace(bs[1..])
  }

  /** A block the request fits in: free and at least as large. */
  predicate Eligible(b: MemoryBlock, size: int) {
    b.isFree && b.size >= size
  }

  /** `[b for b in blocks if b.is_free and b.size >= size]`, kept as positions. */
  function Candidates(blocks: seq<MemoryBlock>, size: int): (c: seq<nat>)
    ensures forall k :: 0 <= k < |c| ==> c[k] < |blocks| && Eligible(blocks[c[k]], size)
    ensures forall j :: 0 <= j < |blocks| && Eligible(blocks[j], size) ==> j in c
    ensures forall k, l :: 0 <= k < l < |c| ==> c[k] < c[l]
  {
    Positions(blocks, b => Eligible(b, size))
  }

  /** The placement policy; any label other than Best Fit and Worst Fit means First Fit. */
  datatype Fit = FirstFit | BestFit | WorstFit

  function FitOf(algo: string): Fit {
    if algo == "Best Fit" then BestFit
    else if algo == "Worst Fit" then WorstFit
    else FirstFit
  }

  /** Sort key of a position for Best Fit: the size of the block there. */
  function SizeKey(blocks: seq<MemoryBlock>): nat -> int {
    (i: nat) => if i < |blocks| then blocks[i].size else 0
  }

  /** Sort key of a position for Worst Fit: the negated size of the block there. */
  function NegSizeKey(blocks: seq<MemoryBlock>): nat -> int {
    (i: nat) => if i < |blocks| then -blocks[i].size else 0
  }

  /**
    The position of the block the policy selects: the first candidate, or
    the head of the candidates stably sorted by size (Best Fit) or by
    negated size (Worst Fit); nothing when no block is eligible.
   */
  function Choose(blocks: seq<MemoryBlock>, size: int, fit: Fit): (r: Option<nat>)
    ensures r.Some? ==> r.value < |blocks| && Eligible(blocks[r.value], size)
  {
    var c := Candidates(blocks, size);
    if |c| == 0 then None
    else
      SortByHead(c, SizeKey(blocks));
      SortByHead(c, NegSizeKey(blocks));
      match fit
      case FirstFit => Some(c[0])
      case BestFit => Some(SortBy(c, SizeKey(blocks))[0])
      case WorstFit => Some(SortBy(c, NegSizeKey(blocks))[0])
  }

  /** First Fit: the leftmost eligible block. */
  ghost predicate FirstFits(blocks: seq<MemoryBlock>, size: int, i: nat) {
    i < |blocks| && Eligible(blocks[i], size) &&
    forall j :: 0 <= j < i ==> !Eligible(blocks[j], size)
  }

  /** Best Fit: the smallest eligible block, the leftmost among equally small ones. */
  ghost predicate BestFits(blocks: seq<MemoryBlock>, size: int, i: nat) {
    i < |blocks| && Eligible(blocks[i], size) &&
    forall j :: 0 <= j < |blocks| && Eligible(blocks[j], size) ==>
      blocks[i].size < blocks[j].size || (blocks[i].size == blocks[j].size && i <= j)
  }

  /** Worst Fit: the largest eligible block, the leftmost among equally large ones. */
  ghost predicate WorstFits(blocks: seq<MemoryBlock>, size: int, i: nat) {
    i < |blocks| && Eligible(blocks[i], size) &&
    forall j :: 0 <= j < |blocks| && Eligible(blocks[j], size) ==>
      blocks[i].size > blocks[j].size || (blocks[i].size == blocks[j].size && i <= j)
  }

  ghost predicate Fits(blocks: seq<MemoryBlock>, size: int, fit: Fit, i: nat) {
    match fit
    case FirstFit => FirstFits(blocks, size, i)
    case BestFit => BestFits(blocks, size, i)
    case WorstFit => WorstFits(blocks, size, i)
  }

  /** At most one block satisfies a policy. */
  lemma {:induction false} FitsUnique(blocks: seq<MemoryBlock>, size: int, fit: Fit, i: nat, i': nat)
    requires Fits(blocks, size, fit, i) && Fits(blocks, size, fit, i')
    ensures i == i'
  {
    match fit
    case FirstFit =>
    case BestFit =>
      assert Eligible(blocks[i'], size) && Eligible(blocks[i], size);
    case WorstFit =>
      assert Eligible(blocks[i'], size) && Eligible(blocks[i], size);
  }

  /**
    The head of the candidates sorted by `key` is the candidate with the
    smallest key, and the leftmost block among those with that key.
   */
  lemma {:induction false} SortedHead(blocks: seq<MemoryBlock>, size: int, key: nat -> int) returns (r: nat)
    requires |Candidates(blocks, size)| > 0
    ensures r == SortBy(Candidates(blocks, size), key)[0]
    ensures r < |blocks| && Eligible(blocks[r], size)
    ensures forall j :: 0 <= j < |blocks| && Eligible(blocks[j], size) ==> key(r) < key(j) || (key(r) == key(j) && r <= j)
  {
    var c := Candidates(blocks, size);
    SortByHead(c, key);
    var m := LeftmostMin(c, key);
    r := c[m];
    forall j | 0 <= j < |blocks| && Eligible(blocks[j], size)
      ensures key(r) < key(j) || (key(r) == key(j) && r <= j)
    {
      assert j in c;
      var l :| 0 <= l < |c| && c[l] == j;
      if l < m {
        assert key(c[m]) < key(c[l]);
      } else {
        assert key(c[m]) <= key(c[l]);
        if l > m {
          assert c[m] < c[l];
        }
      }
    }
  }

  /** No candidates means no free block is large enough. */
  lemma {:induction false} NoCandidates(blocks: seq<MemoryBlock>, size: int)
    requires |Candidates(blocks, size)| == 0
    ensures forall j :: 0 <= j < |blocks| ==> !Eligible(blocks[j], size)
  {
    forall j | 0 <= j < |blocks|
      ensures !Eligible(blocks[j], size)
    {
      assert j !in Candidates(blocks, size);
    }
  }

  /** The first candidate is the leftmost eligible block. */
  lemma {:induction false} FirstCandidate(blocks: seq<MemoryBlock>, size: int)
    requires |Candidates(blocks, size)| > 0
    ensures FirstFits(blocks, size, Candidates(blocks, size)[0])
  {
    var c := Candidates(blocks, size);
    assert forall l :: 0 <= l < |c| ==> c[0] <= c[l];
    forall j | 0 <= j < c[0]
      ensures !Eligible(blocks[j], size)
    {
      assert j !in c;
    }
  }

  /**
    The selection: there is a block exactly when some free block is large
    enough, and the block chosen is the one the policy names.
   */
  lemma {:induction false} ChooseSpec(blocks: seq<MemoryBlock>, size: int, fit: Fit)
    ensures Choose(blocks, size, fit).None? <==> forall j :: 0 <= j < |blocks| ==> !Eligible(blocks[j], size)
    ensures Choose(blocks, size, fit).Some? ==> Fits(blocks, size, fit, Choose(blocks, size, fit).value)
  {
    var c := Candidates(blocks, size);
    if |c| == 0 {
      NoCandidates(blocks, size);
    } else {
      match fit
      case FirstFit =>
        FirstCandidate(blocks, size);
        assert Choose(blocks, size, fit) == Some(c[0]);
      case BestFit =>
        var r := SortedHead(blocks, size, SizeKey(blocks));
        assert Choose(blocks, size, fit) == Some(r);
      case WorstFit =>
        var r := SortedHead(blocks, size, NegSizeKey(blocks));
        assert Choose(blocks, size, fit) == Some(r);
    }
  }

  /**
    `Choose` is exact: it returns a position if and only if that position
    satisfies the policy.
   */
  lemma {:induction false} ChooseExact(blocks: seq<MemoryBlock>, size: int, fit: Fit, i: nat)
    ensures Choose(blocks, size, fit) == Some(i) <==> Fits(blocks, size, fit, i)
  {
    ChooseSpec(blocks, size, fit);
    if Fits(blocks, size, fit, i) {
      assert Eligible(blocks[i], size);
      FitsUnique(blocks, size, fit, i, Choose(blocks, size, fit).value);
    }
  }

  /**
    What block `b` becomes when handed to process `pid` for `size` units:
    a used block at its start, followed by a free block for the leftover
    when there is one.
   */
  function Pieces(b: MemoryBlock, pid: string, size: int): (r: seq<MemoryBlock>)
    ensures 1 <= |r| <= 2 && (|r| == 2 <==> b.size > size)
    ensures r[0] == MemoryBlock(b.start, size, false, Some(pid))
    ensures |r| == 2 ==> r[1].isFree && r[1].processId.None? && r[1].start == b.start + size && End(r[1]) == End(b)
  {
    var used := MemoryBlock(b.start, size, false, Some(pid));
    if b.size - size > 0 then [used, MemoryBlock(b.start + size, b.size - size, true, None)] else [used]
  }

  /** Block `i` replaced, in place, by its pieces. */
  function Place(blocks: seq<MemoryBlock>, i: nat, pid: string, size: int): (r: seq<MemoryBlock>)
    requires i < |blocks|
    ensures var n := |Pieces(blocks[i], pid, size)|;
      |r| == |blocks| + n - 1 &&
      r[..i] == blocks[..i] && r[i..i + n] == Pieces(blocks[i], pid, size) && r[i + n..] == blocks[i + 1..]
  {
    blocks[..i] + Pieces(blocks[i], pid, size) + blocks[i + 1..]
  }

  /** Replacing block `i` by blocks that tile the same range keeps the whole tiling. */
  lemma {:induction false} TilesSplice(bs: seq<MemoryBlock>, from: int, to: int, i: nat, mid: seq<MemoryBlock>)
    requires i < |bs| && Tiles(bs, from, to)
    requires Tiles(mid, bs[i].start, End(bs[i]))
    ensures Tiles(bs[..i] + mid + bs[i + 1..], from, to)
    decreases i
  {
    if i == 0 {
      assert bs[..0] + mid + bs[1..] == mid + bs[1..];
      TilesAppend(mid, bs[1..], from, End(bs[0]), to);
    } else {
      TilesSplice(bs[1..], End(bs[0]), to, i - 1, mid);
      assert bs[1..][..i - 1] + mid + bs[1..][i..] == (bs[..i] + mid + bs[i + 1..])[1..];
    }
  }

  lemma {:induction false} TilesAppend(a: seq<MemoryBlock>, b: seq<MemoryBlock>, from: int, mid: int, to: int)
    requires Tiles(a, from, mid) && Tiles(b, mid, to)
    ensures Tiles(a + b, from, to)
    decreases |a|
  {
    if |a| > 0 {
      TilesAppend(a[1..], b, End(a[0]), mid, to);
      assert (a + b)[1..] == a[1..] + b;
    } else {
      assert a + b == b;
    }
  }

  lemma {:induction false} FreeSpaceAppend(a: seq<MemoryBlock>, b: seq<MemoryBlock>)
    ensures FreeSpace(a + b) == FreeSpace(a) + FreeSpace(b)
    decreases |a|
  {
    if |a| > 0 {
      FreeSpaceAppend(a[1..], b);
      assert (a + b)[1..] == a[1..] + b;
    } else {
      assert a + b == b;
    }
  }

  /** The pieces of an eligible block tile exactly the range the block did, and take `size` off the free space. */
  lemma {:induction false} PiecesFit(b: MemoryBlock, pid: string, size: int)
    requires Eligible(b, size)
    ensures Tiles(Pieces(b, pid, size), b.start, End(b))
    ensures FreeSpace(Pieces(b, pid, size)) == b.size - size
  {
    var p := Pieces(b, pid, size);
    if b.size - size > 0 {
      assert p[1..] == [p[1]] && p[1..][1..] == [];
      assert FreeSpace(p[1..]) == b.size - size + FreeSpace([]);
    } else {
      assert p[1..] == [];
    }
  }

  /**
    A placement into an eligible block keeps the blocks tiling the range,
    gives the process exactly `size` units at the block's start, and takes
    exactly `size` units off the free space.
   */
  lemma {:induction false} PlaceTiles(blocks: seq<MemoryBlock>, total: int, i: nat, pid: string, size: int)
    requires i < |blocks| && Eligible(blocks[i], size) && Tiles(blocks, 0, total)
    ensures Tiles(Place(blocks, i, pid, size), 0, total)
    ensures Place(blocks, i, pid, size)[i] == MemoryBlock(blocks[i].start, size, false, Some(pid))
    ensures FreeSpace(Place(blocks, i, pid, size)) == FreeSpace(blocks) - size
  {
    var mid := Pieces(blocks[i], pid, size);
    PiecesFit(blocks[i], pid, size);
    TilesSplice(blocks, 0, total, i, mid);
    assert blocks[..i] + [blocks[i]] + blocks[i + 1..] == blocks;
    FreeSpaceAppend(blocks[..i] + [blocks[i]], blocks[i + 1..]);
    FreeSpaceAppend(blocks[..i], [blocks[i]]);
    FreeSpaceAppend(blocks[..i] + mid, blocks[i + 1..]);
    FreeSpaceAppend(blocks[..i], mid);
  }

  /**
    A placement keeps free blocks exactly the unowned ones, and keeps every
    block of positive size when the request is of positive size.
   */
  lemma {:induction false} PlaceTagged(blocks: seq<MemoryBlock>, i: nat, pid: string, size: int)
    requires i < |blocks| && Eligible(blocks[i], size) && Tagged(blocks)
    ensures Tagged(Place(blocks, i, pid, size))
    ensures Positive(blocks) && size > 0 ==> Positive(Place(blocks, i, pid, size))
  {
    var r := Place(blocks, i, pid, size);
    var mid := Pieces(blocks[i], pid, size);
    forall k | 0 <= k < |r|
      ensures r[k].isFree <==> r[k].processId.None?
      ensures Positive(blocks) && size > 0 ==> r[k].size > 0
    {
      if k < i {
        assert r[k] == blocks[k];
      } else if k < i + |mid| {
        assert r[k] == mid[k - i];
      } else {
        assert r[k] == blocks[k - |mid| + 1];
      }
    }
  }

  /**
    As written, nothing rejects a request of negative size: from one free
    block of 1000 units, a request of -100 units is granted, leaving a
    used block of size -100 and a free leftover of 1100 units that starts
    below address 0.
   */
  lemma {:induction false} NegativeRequestGranted()
    ensures var blocks := [MemoryBlock(0, 1000, true, None)];
      Choose(blocks, -100, FirstFit) == Some(0) &&
      Place(blocks, 0, "p", -100) == [MemoryBlock(0, -100, false, Some("p")), MemoryBlock(-100, 1100, true, None)] &&
      Positive(blocks) && !Positive(Place(blocks, 0, "p", -100))
  {
    var blocks := [MemoryBlock(0, 1000, true, None)];
    assert Eligible(blocks[0], -100);
    assert 0 in Candidates(blocks, -100);
    var r := Place(blocks, 0, "p", -100);
    assert r[0].size == -100;
  }

  /** The memory table row of a block. */
  function RowOf(b: MemoryBlock): Row {
    Row(b.start, b.size, b.isFree, if !b.isFree then b.processId else Some("-"))
  }

  /** The block a row describes, reading the PID column of a used block as its owner. */
  function BlockOf(row: Row): MemoryBlock {
    MemoryBlock(row.start, row.size, row.free, if row.free then None else row.pid)
  }

  class MemoryManager {
    const totalSize: int
    var blocks: seq<MemoryBlock>

    /** The blocks tile `[0, totalSize)` in order, and free blocks are exactly those without owner. */
    ghost predicate Valid()
      reads this
    {
      |blocks| > 0 && Tiles(blocks, 0, totalSize) && Tagged(blocks)
    }

    /** One free block over the whole range. */
    constructor (totalSize: int)
      ensures this.totalSize == totalSize
      ensures blocks == [MemoryBlock(0, totalSize, true, None)]
      ensures Valid()
    {
      this.totalSize := totalSize;
      blocks := [MemoryBlock(0, totalSize, true, None)];
      new;
      assert blocks[1..] == [];
    }

    /**
      Allocates `processSize` units to `processId` by the policy `algo`.
      It fails, changing nothing, exactly when no free block is large
      enough; otherwise it places the request in the block the policy
      selects.
     */
    method Allocate(processId: string, processSize: int, algo: string := "First Fit") returns (ok: bool)
      requires Valid()
      modifies this
      ensures Valid()
      ensures ok <==> Choose(old(blocks), processSize, FitOf(algo)).Some?
      ensures !ok ==> blocks == old(blocks)
      ensures ok ==> blocks == Place(old(blocks), Choose(old(blocks), processSize, FitOf(algo)).value, processId, processSize)
      ensures ok ==> FreeSpace(blocks) == FreeSpace(old(blocks)) - processSize
      ensures Positive(old(blocks)) && processSize > 0 ==> Positive(blocks)
    {
      var found := FindBlock(processSize, algo);
      if found.None? {
        return false;
      }
      Split(found.value, processId, processSize);
      ok := true;
    }

    /** The block a request goes to: the eligible blocks, ordered by the policy, and the first of them. */
    method FindBlock(processSize: int, algo: string) returns (found: Option<nat>)
      ensures found == Choose(blocks, processSize, FitOf(algo))
    {
      var candidates := Candidates(blocks, processSize);
      if |candidates| == 0 {
        return None;
      }
      if algo == "Best Fit" {
        candidates := SortBy(candidates, SizeKey(blocks));
      } else if algo == "Worst Fit" {
        candidates := SortBy(candidates, NegSizeKey(blocks));
      }
      found := Some(candidates[0]);
    }

    /** Block `index` gives its first `processSize` units to the process; the rest, if any, stays free just after it. */
    method Split(index: nat, processId: string, processSize: int)
      requires Valid() && index < |blocks| && Eligible(blocks[index], processSize)
      modifies this
      ensures Valid()
      ensures blocks == Place(old(blocks), index, processId, processSize)
      ensures FreeSpace(blocks) == FreeSpace(old(blocks)) - processSize
      ensures Positive(old(blocks)) && processSize > 0 ==> Positive(blocks)
    {
      PlaceTiles(blocks, totalSize, index, processId, processSize);
      PlaceTagged(blocks, index, processId, processSize);
      ghost var target := Place(blocks, index, processId, processSize);
      var selected := blocks[index];
      var used := MemoryBlock(selected.start, processSize, false, Some(processId));
      var remaining := selected.size - processSize;
      if remaining > 0 {
        var leftover := MemoryBlock(selected.start + processSize, remaining, true, None);
        assert Pieces(selected, processId, processSize) == [used, leftover];
        blocks := blocks[..index] + [used, leftover] + blocks[index + 1..];
      } else {
        assert Pieces(selected, processId, processSize) == [used];
        assert blocks[index := used] == blocks[..index] + [used] + blocks[index + 1..];
        blocks := blocks[index := used];
      }
      assert blocks == target;
    }

    /**
      Allocation that refuses requests of no positive size, so every block
      keeps a positive size and the blocks stay a partition of the range.
     */
    method AllocateChecked(processId: string, processSize: int, algo: string := "First Fit") returns (ok: bool)
      requires Valid() && Positive(blocks)
      modifies this
      ensures Valid() && Positive(blocks)
      ensures ok <==> processSize > 0 && Choose(old(blocks), processSize, FitOf(algo)).Some?
      ensures !ok ==> blocks == old(blocks)
      ensures ok ==> blocks == Place(old(blocks), Choose(old(blocks), processSize, FitOf(algo)).value, processId, processSize)
    {
      if processSize <= 0 {
        return false;
      }
      ok := Allocate(processId, processSize, algo);
    }

    /** One row per block, in address order. */
    function MemoryTable(): (rows: seq<Row>)
      reads this
      ensures |rows| == |blocks|
      ensures forall k :: 0 <= k < |blocks| ==>
        rows[k].start == blocks[k].start && rows[k].size == blocks[k].size && rows[k].free == blocks[k].isFree &&
        rows[k].pid == (if blocks[k].isFree then Some("-") else blocks[k].processId)
    {
      seq(|blocks|, k requires 0 <= k < |blocks| reads this => RowOf(blocks[k]))
    }

    /**
      The table loses nothing: each row gives back its block, and a row
      shows the PID `-` for every free block.
     */
    lemma {:induction false} TableRoundTrip()
      requires Valid()
      ensures forall k :: 0 <= k < |blocks| ==> BlockOf(MemoryTable()[k]) == blocks[k]
      ensures forall k :: 0 <= k < |blocks| && blocks[k].isFree ==> MemoryTable()[k].pid == Some("-")
    {
    }
  }
}
