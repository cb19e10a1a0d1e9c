/**
 * The non-blocking log writer: a bounded channel, a writer thread and numbered generations of files
 * (`SharedLogFileWriter::write`, the loop of `start_log_writer`, `rotate_logs`).
 */
module LogWriter {
  import opened Collections

  type Record = seq<int>

  /** Records of one file, in order. Index 0 is the current path, index i its i-th generation. */
  type File = seq<Record>

  type Directory = map<nat, File>

  function FileBytes(f: File): nat {
    if f == [] then 0 else FileBytes(f[..|f| - 1]) + |f[|f| - 1]|
  }

  // ---- Rotation ----

  /** The file at a generation, if there is one. */
  function At(d: Directory, i: int): Option<File> {
    if i >= 0 && i in d then Some(d[i]) else None
  }

  /** The directory with new contents at the current path. */
  function WithCurrent(d: Directory, f: File): (r: Directory)
    ensures At(r, 0) == Some(f)
    ensures forall i {:trigger At(r, i)} :: i != 0 ==> At(r, i) == At(d, i)
  {
    d[0 := f]
  }

  /** Everything moves one generation up, the oldest is gone, the current path is free. */
  ghost predicate IsRotated(before: Directory, after: Directory, maxFiles: nat) {
    At(after, 0) == None && MovedUp(before, after, maxFiles)
  }

  ghost predicate MovedUp(before: Directory, after: Directory, maxFiles: nat) {
    forall i {:trigger At(after, i)} :: 1 <= i ==>
      At(after, i) == if i < maxFiles then At(before, i - 1) else At(before, i)
  }

  /** A rename. Its precondition is the claim that rotation never overwrites a file. */
  method Rename(files: Directory, source: nat, target: nat) returns (r: Directory)
    requires At(files, source).Some? && At(files, target).None?
    ensures At(r, source) == None && At(r, target) == At(files, source)
    ensures forall i {:trigger At(r, i)} :: i != source && i != target ==> At(r, i) == At(files, i)
  {
    r := (files - {source})[target := files[source]];
  }

  /** `rotate_logs`, when none of its file operations fails. */
  method RotateLogs(files: Directory, maxFiles: nat) returns (r: Directory)
    ensures IsRotated(files, r, maxFiles)
  {
    if maxFiles <= 1 {
      r := files - {0};
      return;
    }
    r := files - {maxFiles - 1};
    var index := maxFiles - 2;
    while index >= 1
      invariant 0 <= index <= maxFiles - 2
      invariant At(r, index + 1) == None
      invariant forall i {:trigger At(r, i)} :: i <= index || maxFiles <= i ==> At(r, i) == At(files, i)
      invariant forall i {:trigger At(r, i)} :: index + 2 <= i < maxFiles ==> At(r, i) == At(files, i - 1)
    {
      if At(r, index).Some? {
        r := Rename(r, index, index + 1);
      }
      index := index - 1;
    }
    if At(r, 0).Some? {
      r := Rename(r, 0, 1);
    }
  }

  function Contents(f: Option<File>): File { if f.Some? then f.value else [] }

  /** All records of the generations below n, oldest first. */
  function Retained(files: Directory, n: nat): seq<Record> {
    if n == 0 then []
    else Contents(At(files, n - 1)) + Retained(files, n - 1)
  }

  lemma {:induction false} RotatedRetains(before: Directory, after: Directory, maxFiles: nat, n: nat)
    requires IsRotated(before, after, maxFiles) && 1 <= n && (n <= maxFiles || n == 1)
    ensures Retained(WithCurrent(after, []), n) == Retained(before, n - 1)
  {
    if n > 1 {
      RotatedRetains(before, after, maxFiles, n - 1);
    }
  }

  /** Writing to the current file adds at the very end. */
  lemma {:induction false} RetainedAppend(files: Directory, record: Record, n: nat)
    requires 1 <= n && 0 in files
    ensures Retained(WithCurrent(files, files[0] + [record]), n) == Retained(files, n) + [record]
  {
    var more := WithCurrent(files, files[0] + [record]);
    if n == 1 {
      assert Retained(files, 0) == [] && Retained(more, 0) == [];
    } else {
      RetainedAppend(files, record, n - 1);
    }
  }

  ghost predicate IsSuffix(t: seq<Record>, whole: seq<Record>) {
    |t| <= |whole| && t == Last(whole, |t|)
  }

  lemma SuffixOfSuffix(a: seq<Record>, b: seq<Record>, whole: seq<Record>)
    requires IsSuffix(a, b) && IsSuffix(b, whole)
    ensures IsSuffix(a, whole)
  {
    assert Last(whole, |a|) == Last(b, |a|);
  }

  /** The generations after a rotation are still the newest records of the history. */
  lemma RotatedIsNewest(before: Directory, after: Directory, maxFiles: nat, n: nat, history: seq<Record>)
    requires IsRotated(before, after, maxFiles) && 1 <= n && (n <= maxFiles || n == 1)
    requires IsSuffix(Retained(before, n), history)
    ensures IsSuffix(Retained(WithCurrent(after, []), n), history)
  {
    RotatedRetains(before, after, maxFiles, n);
    assert Retained(before, n) == Contents(At(before, n - 1)) + Retained(before, n - 1);
    assert IsSuffix(Retained(before, n - 1), Retained(before, n));
    SuffixOfSuffix(Retained(before, n - 1), Retained(before, n), history);
  }

  /** So they are after a record is added to the current file. */
  lemma AppendedIsNewest(files: Directory, record: Record, n: nat, earlier: seq<Record>, written: seq<Record>)
    requires 1 <= n && 0 in files && IsSuffix(Retained(files, n), earlier + written)
    ensures IsSuffix(Retained(WithCurrent(files, files[0] + [record]), n), earlier + (written + [record]))
  {
    RetainedAppend(files, record, n);
    assert earlier + (written + [record]) == earlier + written + [record];
  }

  /** Within the limit, or a single record. */
  predicate FitsAlone(f: Option<File>, maxBytes: nat) {
    f.None? || FileBytes(f.value) <= maxBytes || |f.value| <= 1
  }

  // ---- The writer ----

  /** The records that are not written yet, oldest first. */
  function Waiting(inHand: Option<Record>, queue: seq<Record>): seq<Record> {
    if inHand.Some? then [inHand.value] + queue else queue
  }

  /** Every record is written, waiting or counted as dropped, and none overtakes another. */
  ghost predicate Accounted(submitted: seq<Record>, written: seq<Record>, waiting: seq<Record>, dropped: nat) {
    |submitted| == |written| + |waiting| + dropped && IsSubsequence(written + waiting, submitted)
  }

  lemma AccountSubmitted(submitted: seq<Record>, written: seq<Record>, waiting: seq<Record>, dropped: nat, x: Record)
    requires Accounted(submitted, written, waiting, dropped)
    ensures Accounted(submitted + [x], written, waiting + [x], dropped)
    ensures Accounted(submitted + [x], written, waiting, dropped + 1)
  {
    SubsequenceSnoc(written + waiting, submitted, x);
    assert written + (waiting + [x]) == written + waiting + [x];
  }

  lemma AccountFirst(submitted: seq<Record>, written: seq<Record>, x: Record, rest: seq<Record>, dropped: nat)
    requires Accounted(submitted, written, [x] + rest, dropped)
    ensures Accounted(submitted, written + [x], rest, dropped)
    ensures Accounted(submitted, written, rest, dropped + 1)
  {
    assert written + ([x] + rest) == written + [x] + rest;
    DropOne(written, x, rest, submitted);
  }

  datatype Fault = NoFault | RotationFails | WriteFails

  class Writer {
    const capacity: nat
    const maxBytes: nat
    const maxFiles: nat
    ghost const existing: Directory

    var queue: seq<Record>
    var inHand: Option<Record>
    var dropped: nat
    var files: Directory
    var size: nat

    ghost var submitted: seq<Record>
    ghost var written: seq<Record>

    /** Generations the writer keeps. */
    ghost function Kept(): nat { if maxFiles <= 1 then 1 else maxFiles }

    /** What was there before, and what was written. */
    ghost function History(): seq<Record>
      reads this
    {
      Retained(existing, Kept()) + written
    }

    ghost predicate Conserved()
      reads this
    {
      Accounted(submitted, written, Waiting(inHand, queue), dropped)
    }

    /** What is on disk is the newest part of everything ever written. */
    ghost predicate KeepsNewest()
      reads this
    {
      && 0 in files
      && IsSuffix(Retained(files, Kept()), History())
      && forall i :: Kept() <= i ==> At(files, i) == At(existing, i)
    }

    /** A file is larger than the limit only if it holds a single record. */
    ghost predicate Bounded()
      reads this
    {
      && 0 in files
      && size == FileBytes(files[0])
      && (maxBytes > 0 && Conforming(existing) ==> Conforming(files))
    }

    ghost predicate Conforming(d: Directory) {
      forall i :: 0 <= i < Kept() ==> FitsAlone(At(d, i), maxBytes)
    }

    ghost predicate Valid()
      reads this
    {
      |queue| <= capacity && Conserved() && KeepsNewest() && Bounded()
    }

    /** `start_log_writer` on whatever an earlier process left behind. */
    constructor (capacity: nat, maxBytes: nat, maxFiles: nat, existing: Directory)
      ensures Valid() && submitted == written == [] && dropped == 0 && queue == [] && inHand == None
      ensures this.capacity == capacity && this.maxBytes == maxBytes && this.maxFiles == maxFiles
      ensures this.existing == existing && files == if 0 in existing then existing else WithCurrent(existing, [])
    {
      this.capacity, this.maxBytes, this.maxFiles, this.existing := capacity, maxBytes, maxFiles, existing;
      queue, inHand, dropped := [], None, 0;
      var start := if 0 in existing then existing else WithCurrent(existing, []);
      files, size := start, FileBytes(start[0]);
      submitted, written := [], [];
      new;
      OpenedRetains(existing, Kept());
    }

    /** `SharedLogFileWriter::write`: a full channel drops the record and counts it. */
    method Submit(record: Record)
      requires Valid()
      modifies this
      ensures Valid() && submitted == old(submitted) + [record]
      ensures old(|queue|) < capacity ==> queue == old(queue) + [record] && dropped == old(dropped)
      ensures old(|queue|) >= capacity ==> queue == old(queue) && dropped == old(dropped) + 1
      ensures unchanged(`inHand, `files, `size, `written)
    {
      ghost var waiting := Waiting(inHand, queue);
      AccountSubmitted(submitted, written, waiting, dropped, record);
      submitted := submitted + [record];
      if |queue| < capacity {
        queue := queue + [record];
        assert Waiting(inHand, queue) == waiting + [record];
      } else {
        dropped := dropped + 1;
      }
    }

    /** The writer takes the oldest record off the channel. */
    method Receive()
      requires Valid() && inHand == None && queue != []
      modifies this
      ensures Valid() && inHand == Some(old(queue)[0]) && queue == old(queue)[1..]
      ensures unchanged(`dropped, `files, `size, `submitted, `written)
    {
      ghost var waiting := Waiting(inHand, queue);
      inHand, queue := Some(queue[0]), queue[1..];
      assert Waiting(inHand, queue) == waiting;
    }

    ghost predicate MustRotate()
      reads this
      requires inHand.Some?
    {
      maxBytes > 0 && size + |inHand.value| > maxBytes
    }

    /** The rest of one loop iteration: rotate if the record does not fit, then write it. */
    method WriteInHand(fault: Fault)
      requires Valid() && inHand.Some?
      modifies this
      ensures Valid() && inHand == None && queue == old(queue) && submitted == old(submitted)
      ensures var lost := fault == WriteFails || (fault == RotationFails && old(MustRotate()));
              && written == (if lost then old(written) else old(written) + [old(inHand).value])
              && dropped == old(dropped) + (if lost then 1 else 0)
      ensures old(!MustRotate()) && fault != WriteFails ==>
                files == WithCurrent(old(files), old(files)[0] + [old(inHand).value])
      ensures old(MustRotate()) && fault == NoFault ==>
                files[0] == [old(inHand).value] && MovedUp(old(files), files, maxFiles)
      ensures old(MustRotate()) && fault == WriteFails ==> files[0] == [] && MovedUp(old(files), files, maxFiles)
      ensures old(MustRotate()) && fault == RotationFails ==> files == old(files)
      ensures old(!MustRotate()) && fault == WriteFails ==> files == old(files)
    {
      var record := inHand.value;
      AccountFirst(submitted, written, record, queue, dropped);
      inHand := None;
      WriteRecord(record, fault);
    }

    /** Writes one record or counts it as dropped. */
    method WriteRecord(record: Record, fault: Fault)
      requires KeepsNewest() && Bounded()
      modifies `files, `size, `written, `dropped
      ensures KeepsNewest() && Bounded()
      ensures var rotate := maxBytes > 0 && old(size) + |record| > maxBytes;
              var lost := fault == WriteFails || (fault == RotationFails && rotate);
              && written == (if lost then old(written) else old(written) + [record])
              && dropped == old(dropped) + (if lost then 1 else 0)
              && (rotate && fault != RotationFails ==>
                    files[0] == (if lost then [] else [record]) && MovedUp(old(files), files, maxFiles))
              && (!rotate && !lost ==> files == WithCurrent(old(files), old(files)[0] + [record]))
              && ((if rotate then fault == RotationFails else lost) ==> files == old(files))
    {
      if maxBytes > 0 && size + |record| > maxBytes {
        if fault == RotationFails {
          dropped := dropped + 1;
          return;
        }
        Rotate();
      }
      if fault == WriteFails {
        dropped := dropped + 1;
      } else {
        Append(record);
      }
    }

    /** Rotation and reopening in the middle of an iteration. */
    method Rotate()
      requires KeepsNewest() && Bounded()
      modifies `files, `size
      ensures KeepsNewest() && Bounded() && files[0] == [] && size == 0
      ensures MovedUp(old(files), files, maxFiles)
    {
      var rotated := RotateLogs(files, maxFiles);
      RotatedIsNewest(files, rotated, maxFiles, Kept(), History());
      files, size := WithCurrent(rotated, []), 0;
    }

    /** `write_all` on the current file. */
    method Append(record: Record)
      requires KeepsNewest() && Bounded()
      requires maxBytes == 0 || size + |record| <= maxBytes || files[0] == []
      modifies `files, `size, `written
      ensures KeepsNewest() && Bounded()
      ensures written == old(written) + [record]
      ensures files == WithCurrent(old(files), old(files)[0] + [record])
    {
      AppendedIsNewest(files, record, Kept(), Retained(existing, Kept()), written);
      var current := files[0] + [record];
      assert current[..|current| - 1] == files[0];
      files, size := WithCurrent(files, current), size + |record|;
      written := written + [record];
    }
  }

  lemma {:induction false} OpenedRetains(existing: Directory, n: nat)
    requires 1 <= n
    ensures 0 !in existing ==> Retained(WithCurrent(existing, []), n) == Retained(existing, n)
  {
    if n > 1 {
      OpenedRetains(existing, n - 1);
    } else {
      assert Retained(existing, 0) == [];
    }
  }

  /** The generations in use below n. */
  ghost function Generations(files: Directory, n: nat): set<nat> {
    set i: nat | i in files && i < n
  }

  lemma {:induction false} GenerationsBounded(files: Directory, n: nat)
    ensures |Generations(files, n)| <= n
  {
    if n > 0 {
      GenerationsBounded(files, n - 1);
      assert Generations(files, n) - {n - 1} == Generations(files, n - 1);
    } else {
      assert Generations(files, n) == {};
    }
  }

  /** Unless an earlier process left older generations behind, at most `maxFiles` files exist (one, for zero). */
  lemma FilesBounded(w: Writer)
    requires w.Valid() && forall i :: w.Kept() <= i ==> At(w.existing, i) == None
    ensures |w.files| <= w.Kept()
  {
    GenerationsBounded(w.files, w.Kept());
    forall i | i in w.files ensures i < w.Kept() {
      assert At(w.files, i).Some?;
    }
    assert w.files.Keys == Generations(w.files, w.Kept());
  }
}
