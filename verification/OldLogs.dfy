/**
 Making room for a new log: deleting the oldest logs until there is enough free space and few enough
 files, and choosing the index of the new log.
 */
module OldLogs {
  import opened Bytes

  const MAX_U32 := 0xFFFF_FFFF
  const MAX_U64 := 0xFFFF_FFFF_FFFF_FFFF
  const TWO63 := 0x8000_0000_0000_0000

  type u32 = n: nat | n <= MAX_U32
  type u64 = n: nat | n <= MAX_U64

  /** Conversion to a signed 64-bit integer. */
  function ToInt64(n: int): (r: int)
    ensures -TWO63 <= r < TWO63
    ensures -TWO63 <= n < TWO63 ==> r == n
  {
    (n + TWO63) % (MAX_U64 + 1) - TWO63
  }

  /** Free space as measured; not measurable is recorded as the largest number. */
  datatype Space = Measured(free: u64) | NoDirectory | Unmeasurable

  function FreeSpace(space: Space): u64
  {
    if space.Measured? then space.free else MAX_U64
  }

  // ----- The deletion goals

  /** What is still to be gained, after deleting files of the given sizes. */
  function BytesLeft(start: int, sizes: seq<u64>): (r: int)
  {
    if sizes == [] then start
    else ToInt64(BytesLeft(start, sizes[..|sizes| - 1]) - sizes[|sizes| - 1])
  }

  function Total(sizes: seq<u64>): (r: nat)
  {
    if sizes == [] then 0 else Total(sizes[..|sizes| - 1]) + sizes[|sizes| - 1]
  }

  /** While the sizes fit, the wrapped count is the plain difference. */
  lemma {:induction false} BytesLeftIsDifference(start: int, sizes: seq<u64>)
    requires -TWO63 <= start - Total(sizes) && start < TWO63
    ensures BytesLeft(start, sizes) == start - Total(sizes)
  {
    if sizes != [] {
      BytesLeftIsDifference(start, sizes[..|sizes| - 1]);
    }
  }

  predicate GoalsMet(bytesLeft: int, filesLeft: int)
  {
    bytesLeft <= 0 && filesLeft <= 0
  }

  function StartBytes(minFree: u64, free: u64): int
  {
    ToInt64(minFree - free)
  }

  function StartFiles(count: nat, maxFiles: u64): int
  {
    if maxFiles > 0 then ToInt64(count - maxFiles) else -1
  }

  /** The space goal is the true shortfall exactly when that shortfall fits 64 signed bits. */
  lemma SpaceGoalExact(minFree: u64, free: u64)
    ensures StartBytes(minFree, free) == minFree - free <==> -TWO63 <= minFree - free < TWO63
  {
  }

  /**
   When the free space could not be measured it passes for more than any minimum, so that without a limit on
   the number of files nothing is deleted; but with one, the goal asks for one byte more than the minimum,
   unless the minimum is so large that the subtraction wraps.
   */
  lemma UnmeasurableSpaceIsShort(minFree: u64)
    ensures StartBytes(minFree, FreeSpace(Unmeasurable)) > 0 <==> minFree < TWO63 - 1
    ensures minFree < TWO63 - 1 ==> StartBytes(minFree, FreeSpace(Unmeasurable)) == minFree + 1
    ensures NothingToDo(Unmeasurable, minFree, 0) <==> minFree < MAX_U64
  {
    assert minFree - MAX_U64 + TWO63 + (MAX_U64 + 1) == minFree + 1 + TWO63;
  }

  /** Progress of the deletion loop, whatever removals fail. */
  ghost predicate Deletes(files: seq<u64>, removable: nat -> bool, start: int, goalFiles: int,
                          seen: nat, deleted: seq<nat>)
  {
    && seen <= |files|
    && Increasing(deleted, seen)
    && (forall i :: 0 <= i < |deleted| ==> removable(deleted[i]))
    && (forall f :: 0 <= f < seen && removable(f) ==> f in deleted)
    && (forall i :: 0 <= i < |deleted| ==>
          !GoalsMet(BytesLeft(start, Pick(files, deleted[..i])), goalFiles - i))
  }

  lemma NothingDeleted(files: seq<u64>, removable: nat -> bool, start: int, goalFiles: int)
    ensures Deletes(files, removable, start, goalFiles, 0, [])
    ensures BytesLeft(start, Pick(files, [])) == start
  {
  }

  lemma BytesLeftMore(start: int, sizes: seq<u64>, size: u64)
    ensures BytesLeft(start, sizes + [size]) == ToInt64(BytesLeft(start, sizes) - size)
  {
    assert (sizes + [size])[..|sizes|] == sizes;
  }

  lemma DeletesMore(files: seq<u64>, removable: nat -> bool, start: int, goalFiles: int, seen: nat,
                    deleted: seq<nat>)
    requires Deletes(files, removable, start, goalFiles, seen, deleted) && seen < |files|
    requires !GoalsMet(BytesLeft(start, Pick(files, deleted)), goalFiles - |deleted|)
    ensures removable(seen) ==> Deletes(files, removable, start, goalFiles, seen + 1, deleted + [seen])
    ensures !removable(seen) ==> Deletes(files, removable, start, goalFiles, seen + 1, deleted)
  {
    hide BytesLeft, GoalsMet;
    var more := deleted + [seen];
    assert forall i :: 0 <= i < |deleted| ==> more[..i] == deleted[..i];
    assert more[..|deleted|] == deleted;
    assert seen in more && forall f :: f in deleted ==> f in more;
  }

  /** With every removal succeeding, the deleted files are the first ones. */
  lemma {:induction false} AllRemovable(files: seq<u64>, removable: nat -> bool, start: int, goalFiles: int,
                                        seen: nat, deleted: seq<nat>, i: nat)
    requires Deletes(files, removable, start, goalFiles, seen, deleted) && i < |deleted|
    requires forall f :: 0 <= f < seen ==> removable(f)
    ensures deleted[i] == i
  {
    if i > 0 {
      AllRemovable(files, removable, start, goalFiles, seen, deleted, i - 1);
    }
    if deleted[i] > i {
      assert i in deleted;
      var j :| 0 <= j < |deleted| && deleted[j] == i;
      assert false;
    }
  }

  /**
   The loop of LogEndpoint::_delete_old_logs over the log files in index order. Returns the positions
   of the deleted files.
   */
  method DeleteInOrder(files: seq<u64>, removable: nat -> bool, start: int, goalFiles: int)
    returns (deleted: seq<nat>, seen: nat)
    ensures Deletes(files, removable, start, goalFiles, seen, deleted)
    ensures GoalsMet(BytesLeft(start, Pick(files, deleted)), goalFiles - |deleted|) || seen == |files|
  {
    hide Deletes, BytesLeft, GoalsMet;
    deleted, seen := [], 0;
    var bytesLeft, filesLeft := start, goalFiles;
    NothingDeleted(files, removable, start, goalFiles);
    while seen < |files|
      invariant Deletes(files, removable, start, goalFiles, seen, deleted)
      invariant seen <= |files| && forall i :: 0 <= i < |deleted| ==> deleted[i] < |files|
      invariant bytesLeft == BytesLeft(start, Pick(files, deleted)) && filesLeft == goalFiles - |deleted|
    {
      if GoalsMet(bytesLeft, filesLeft) {
        return;
      }
      DeletesMore(files, removable, start, goalFiles, seen, deleted);
      if removable(seen) {
        assert Pick(files, deleted + [seen]) == Pick(files, deleted) + [files[seen]];
        BytesLeftMore(start, Pick(files, deleted), files[seen]);
        bytesLeft := ToInt64(bytesLeft - files[seen]);
        filesLeft := filesLeft - 1;
        deleted := deleted + [seen];
      }
      seen := seen + 1;
    }
  }

  // ----- The whole operation

  /** Enough space and few enough files, once the first `k` files are gone. */
  predicate Enough(files: seq<u64>, minFree: u64, free: u64, maxFiles: u64, k: nat)
    requires k <= |files|
  {
    free + Total(files[..k]) >= minFree && (maxFiles > 0 ==> |files| - k <= maxFiles)
  }

  /** The 64-bit counters cannot wrap. */
  predicate Fits(files: seq<u64>, minFree: u64, free: u64, maxFiles: u64)
  {
    && -TWO63 <= minFree - free - Total(files) && minFree - free < TWO63
    && -TWO63 <= |files| - maxFiles && |files| < TWO63
  }

  /** `k` is the least number of oldest files whose deletion is enough, or all of them. */
  ghost predicate Shortest(files: seq<u64>, minFree: u64, free: u64, maxFiles: u64, k: nat)
  {
    && k <= |files|
    && (forall j :: 0 <= j < k ==> !Enough(files, minFree, free, maxFiles, j))
    && (k < |files| ==> Enough(files, minFree, free, maxFiles, k))
  }

  lemma {:induction false} TotalMonotone(files: seq<u64>, k: nat)
    requires k <= |files|
    ensures Total(files[..k]) <= Total(files)
  {
    if k < |files| {
      TotalMonotone(files[..|files| - 1], k);
      assert files[..|files| - 1][..k] == files[..k];
    } else {
      assert files[..k] == files;
    }
  }

  lemma GoalsAreEnough(files: seq<u64>, minFree: u64, free: u64, maxFiles: u64, k: nat)
    requires Fits(files, minFree, free, maxFiles) && k <= |files|
    ensures GoalsMet(BytesLeft(StartBytes(minFree, free), files[..k]), StartFiles(|files|, maxFiles) - k)
            <==> Enough(files, minFree, free, maxFiles, k)
  {
    TotalMonotone(files, k);
    BytesLeftIsDifference(minFree - free, files[..k]);
  }

  lemma DeletedIsShortest(files: seq<u64>, removable: nat -> bool, minFree: u64, free: u64, maxFiles: u64,
                          seen: nat, deleted: seq<nat>)
    requires Fits(files, minFree, free, maxFiles)
    requires forall f :: 0 <= f < |files| ==> removable(f)
    requires var start, goal := StartBytes(minFree, free), StartFiles(|files|, maxFiles);
             && Deletes(files, removable, start, goal, seen, deleted)
             && (GoalsMet(BytesLeft(start, Pick(files, deleted)), goal - |deleted|) || seen == |files|)
    ensures Shortest(files, minFree, free, maxFiles, |deleted|)
    ensures forall i :: 0 <= i < |deleted| ==> deleted[i] == i
  {
    hide BytesLeft, GoalsMet, Enough, Fits, ToInt64, StartBytes, StartFiles;
    var start, goal := StartBytes(minFree, free), StartFiles(|files|, maxFiles);
    forall i | 0 <= i < |deleted|
      ensures deleted[i] == i
    {
      AllRemovable(files, removable, start, goal, seen, deleted, i);
    }
    if |deleted| > 0 {
      assert deleted[|deleted| - 1] < seen;
    }
    forall i | 0 <= i < |deleted|
      ensures !Enough(files, minFree, free, maxFiles, i)
    {
      assert Pick(files, deleted[..i]) == files[..i];
      GoalsAreEnough(files, minFree, free, maxFiles, i);
    }
    if seen == |files| && 0 < |files| {
      assert |files| - 1 in deleted;
    }
    assert Pick(files, deleted) == files[..|deleted|];
    GoalsAreEnough(files, minFree, free, maxFiles, |deleted|);
  }

  /** There is nothing to do: no directory, or enough space and no limit on the number of files. */
  predicate NothingToDo(space: Space, minFree: u64, maxFiles: u64)
  {
    space.NoDirectory? || (FreeSpace(space) > minFree && maxFiles == 0)
  }

  /**
   LogEndpoint::_delete_old_logs on the read-only logs in index order. Whatever removals fail, the loop
   goes on until both goals are met or every file was tried.
   */
  method DeleteOldLogs(files: seq<u64>, removable: nat -> bool, space: Space, minFree: u64, maxFiles: u64)
    returns (deleted: seq<nat>, tried: nat)
    ensures NothingToDo(space, minFree, maxFiles) ==> deleted == [] && tried == 0
    ensures space.NoDirectory? ==> deleted == []
    ensures maxFiles == 0 && (space.Unmeasurable? || (space.Measured? && space.free > minFree)) ==>
              deleted == [] || minFree == MAX_U64
    ensures var start, goal := StartBytes(minFree, FreeSpace(space)), StartFiles(|files|, maxFiles);
            && Deletes(files, removable, start, goal, tried, deleted)
            && (NothingToDo(space, minFree, maxFiles) || tried == |files|
                || GoalsMet(BytesLeft(start, Pick(files, deleted)), goal - |deleted|))
    ensures space.Measured? && Fits(files, minFree, space.free, maxFiles)
            && (forall f :: 0 <= f < |files| ==> removable(f))
            ==> Shortest(files, minFree, space.free, maxFiles, |deleted|)
                && forall i :: 0 <= i < |deleted| ==> deleted[i] == i
  {
    hide BytesLeft, GoalsMet, ToInt64, Enough;
    deleted, tried := [], 0;
    var free := FreeSpace(space);
    NothingDeleted(files, removable, StartBytes(minFree, free), StartFiles(|files|, maxFiles));
    if space.NoDirectory? {
      return;
    }
    if free > minFree && maxFiles == 0 {
      if space.Measured? && Fits(files, minFree, free, maxFiles) {
        EnoughAlready(files, minFree, free);
      }
      return;
    }
    deleted, tried := DeleteInOrder(files, removable, StartBytes(minFree, free), StartFiles(|files|, maxFiles));
    if space.Measured? && Fits(files, minFree, space.free, maxFiles)
       && forall f :: 0 <= f < |files| ==> removable(f) {
      DeletedIsShortest(files, removable, minFree, free, maxFiles, tried, deleted);
    }
  }

  lemma EnoughAlready(files: seq<u64>, minFree: u64, free: u64)
    requires free > minFree
    ensures Shortest(files, minFree, free, 0, 0)
  {
  }

  /** LogEndpoint::_get_prefix over the indices found in the directory. */
  method GetPrefix(indices: seq<Option<u32>>) returns (prefix: u32)
    ensures forall i :: 0 <= i < |indices| && indices[i].Some? && indices[i].value < MAX_U32 ==>
              indices[i].value < prefix
    ensures prefix > 0 ==> Some(prefix - 1) in indices
  {
    prefix := 0;
    for n := 0 to |indices|
      invariant forall i :: 0 <= i < n && indices[i].Some? && indices[i].value < MAX_U32 ==>
                  indices[i].value < prefix
      invariant prefix > 0 ==> Some(prefix - 1) in indices
    {
      match indices[n] {
        case None =>
        case Some(u) =>
          if u >= prefix && u < MAX_U32 {
            prefix := u + 1;
          }
      }
    }
  }
}
