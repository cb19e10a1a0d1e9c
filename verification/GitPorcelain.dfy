/**
 * The parser of `git status --porcelain=v2 -z` (`parse_git_porcelain_v2` and its helpers): records
 * separated by NUL, a rename taking the record after it, counts over everything and a file list cut
 * at 1000.
 */
module GitPorcelain {
  import opened Collections

  const MAX_CHANGED_FILES: nat := 1_000
  const NUL: char := '\0'

  datatype ChangeKind = Added | Modified | Deleted | Renamed | Copied | TypeChanged | Unmerged | Untracked | Unknown

  datatype ChangedFile = ChangedFile(
    path: string,
    previousPath: Option<string>,
    indexStatus: Option<ChangeKind>,
    worktreeStatus: Option<ChangeKind>,
    conflicted: bool)

  datatype Snapshot = Snapshot(
    changedFiles: seq<ChangedFile>,
    staged: nat, unstaged: nat, untracked: nat, conflicted: nat,
    truncated: bool)

  // ---- Splitting text ----

  /** Where c first occurs in s, or the length of s. */
  function IndexOf(s: string, c: char): (i: nat)
    ensures i <= |s|
    ensures forall k :: 0 <= k < i ==> s[k] != c
    ensures i < |s| ==> s[i] == c
  {
    if s == "" || s[0] == c then 0 else 1 + IndexOf(s[1..], c)
  }

  /** `str::split` by one character. */
  function SplitAll(s: string, c: char): seq<string>
    decreases |s|
  {
    var i := IndexOf(s, c);
    if i == |s| then [s] else [s[..i]] + SplitAll(s[i + 1..], c)
  }

  /** `str::splitn`: at most n pieces, the last one holding whatever is left. */
  function SplitN(s: string, n: nat, c: char): seq<string> {
    if n == 0 then []
    else
      var i := IndexOf(s, c);
      if n == 1 || i == |s| then [s] else [s[..i]] + SplitN(s[i + 1..], n - 1, c)
  }

  // ---- One record ----

  /** `git_change_kind`. */
  function GitChangeKind(status: char): Option<ChangeKind> {
    match status
    case '.' => None
    case 'A' => Some(Added)
    case 'M' => Some(Modified)
    case 'D' => Some(Deleted)
    case 'R' => Some(Renamed)
    case 'C' => Some(Copied)
    case 'T' => Some(TypeChanged)
    case 'U' => Some(Unmerged)
    case '?' => Some(Untracked)
    case _ => Some(Unknown)
  }

  /** `git_changed_file`. */
  function GitChangedFile(path: string, previousPath: Option<string>, xy: string): ChangedFile {
    var index := if |xy| > 0 then GitChangeKind(xy[0]) else None;
    var worktree := if |xy| > 1 then GitChangeKind(xy[1]) else None;
    ChangedFile(path, previousPath, index, worktree, index == Some(Unmerged) || worktree == Some(Unmerged))
  }

  /** The xy field and the path of an ordinary (8 fields) or renamed (9 fields) record. */
  function ParseFields(record: string, pieces: nat): Option<ChangedFile>
    requires pieces >= 2
  {
    var fields := SplitN(record, pieces, ' ');
    if |fields| < pieces - 1 then None else Some(GitChangedFile(fields[pieces - 2], None, fields[0]))
  }

  /** `parse_ordinary_git_change`: the eighth of nine pieces is the path. */
  function ParseOrdinary(record: string): Option<ChangedFile> { ParseFields(record, 9) }

  /** `parse_renamed_git_change`: the ninth of ten pieces is the path. */
  function ParseRenamed(record: string): Option<ChangedFile> { ParseFields(record, 10) }

  /** The unmerged branch: the eleventh of eleven pieces is the path. */
  function ParseUnmerged(record: string): Option<ChangedFile> {
    var fields := SplitN(record, 11, ' ');
    if |fields| < 11 then None
    else Some(UnmergedFile(fields[10]))
  }

  function UnmergedFile(path: string): ChangedFile {
    ChangedFile(path, None, Some(Unmerged), Some(Unmerged), true)
  }

  function UntrackedFile(path: string): ChangedFile {
    ChangedFile(path, None, None, Some(Untracked), false)
  }

  // ---- All records: the meaning ----

  /** What the record at i gives, and where the next record starts. Header and unknown records give nothing. */
  datatype Step = Step(change: Option<ChangedFile>, next: nat)

  function ReadRecord(records: seq<string>, i: nat): (s: Step)
    requires i < |records|
    ensures i < s.next
  {
    var record := records[i];
    if "1 " <= record then Step(ParseOrdinary(record[2..]), i + 1)
    else if "2 " <= record then
      match ParseRenamed(record[2..])
      case None => Step(None, i + 1)
      case Some(change) =>
        Step(Some(change.(previousPath := if i + 1 < |records| then Some(records[i + 1]) else None)), i + 2)
    else if "u " <= record then Step(ParseUnmerged(record[2..]), i + 1)
    else if "? " <= record then Step(Some(UntrackedFile(record[2..])), i + 1)
    else Step(None, i + 1)
  }

  /** The changes of the records from i on. */
  function Changes(records: seq<string>, i: nat): seq<ChangedFile>
    decreases |records| - i
  {
    if i >= |records| then []
    else
      var step := ReadRecord(records, i);
      OptionToSeq(step.change) + Changes(records, step.next)
  }

  function OptionToSeq<T>(o: Option<T>): seq<T> { if o.Some? then [o.value] else [] }

  /** How many changes satisfy a condition. */
  function Count(changes: seq<ChangedFile>, p: ChangedFile -> bool): nat {
    if changes == [] then 0
    else Count(changes[..|changes| - 1], p) + if p(changes[|changes| - 1]) then 1 else 0
  }

  predicate IsStaged(c: ChangedFile) { c.indexStatus.Some? }
  predicate IsUnstaged(c: ChangedFile) { c.worktreeStatus.Some? }
  predicate IsUntracked(c: ChangedFile) { c.worktreeStatus == Some(Untracked) }
  predicate IsConflicted(c: ChangedFile) { c.conflicted }

  /** The counts range over all changes; the list is the first 1000; the mark is set exactly beyond that. */
  ghost predicate Summarises(s: Snapshot, changes: seq<ChangedFile>) {
    && s.changedFiles == First(changes, MAX_CHANGED_FILES)
    && (s.truncated <==> |changes| > MAX_CHANGED_FILES)
    && s.staged == Count(changes, IsStaged)
    && s.unstaged == Count(changes, IsUnstaged)
    && s.untracked == Count(changes, IsUntracked)
    && s.conflicted == Count(changes, IsConflicted)
  }

  const EMPTY := Snapshot([], 0, 0, 0, 0, false)

  /** `push_git_change`. */
  method PushGitChange(snapshot: Snapshot, change: ChangedFile, ghost changes: seq<ChangedFile>) returns (s: Snapshot)
    requires Summarises(snapshot, changes)
    ensures Summarises(s, changes + [change])
  {
    assert (changes + [change])[..|changes|] == changes;
    s := snapshot;
    if change.indexStatus.Some? {
      s := s.(staged := s.staged + 1);
    }
    if change.worktreeStatus.Some? {
      s := s.(unstaged := s.unstaged + 1);
    }
    if change.worktreeStatus == Some(Untracked) {
      s := s.(untracked := s.untracked + 1);
    }
    if change.conflicted {
      s := s.(conflicted := s.conflicted + 1);
    }
    if |s.changedFiles| < MAX_CHANGED_FILES {
      s := s.(changedFiles := s.changedFiles + [change]);
    } else {
      assert First(changes + [change], MAX_CHANGED_FILES) == First(changes, MAX_CHANGED_FILES);
      s := s.(truncated := true);
    }
  }

  /** `parse_git_porcelain_v2`. */
  method ParseGitPorcelainV2(status: string) returns (snapshot: Snapshot)
    ensures Summarises(snapshot, Changes(SplitAll(status, NUL), 0))
    ensures CountsAndList(snapshot, Changes(SplitAll(status, NUL), 0))
  {
    snapshot := ParseRecords(SplitAll(status, NUL));
    SummaryCounts(snapshot, Changes(SplitAll(status, NUL), 0));
  }

  /** The snapshot in numbers: how many changes are staged, unstaged, untracked and conflicted, and the list. */
  ghost predicate CountsAndList(s: Snapshot, changes: seq<ChangedFile>) {
    && s.staged == Count(changes, (c: ChangedFile) => c.indexStatus.Some?)
    && s.unstaged == Count(changes, (c: ChangedFile) => c.worktreeStatus.Some?)
    && s.untracked == Count(changes, (c: ChangedFile) => c.worktreeStatus == Some(Untracked))
    && s.conflicted == Count(changes, (c: ChangedFile) => c.conflicted)
    && (s.truncated <==> |changes| > 1000)
    && s.changedFiles == if |changes| > 1000 then changes[..1000] else changes
  }

  lemma SummaryCounts(s: Snapshot, changes: seq<ChangedFile>)
    requires Summarises(s, changes)
    ensures CountsAndList(s, changes)
  {
    SameCount(changes, IsStaged, (c: ChangedFile) => c.indexStatus.Some?);
    SameCount(changes, IsUnstaged, (c: ChangedFile) => c.worktreeStatus.Some?);
    SameCount(changes, IsUntracked, (c: ChangedFile) => c.worktreeStatus == Some(Untracked));
    SameCount(changes, IsConflicted, (c: ChangedFile) => c.conflicted);
  }

  lemma {:induction false} SameCount(changes: seq<ChangedFile>, p: ChangedFile -> bool, q: ChangedFile -> bool)
    requires forall c :: p(c) == q(c)
    ensures Count(changes, p) == Count(changes, q)
  {
    if changes != [] {
      SameCount(changes[..|changes| - 1], p, q);
    }
  }

  lemma {:induction false} CountIsCardinality(changes: seq<ChangedFile>, p: ChangedFile -> bool)
    ensures Count(changes, p) == |set i | 0 <= i < |changes| && p(changes[i])|
  {
    var all := set i | 0 <= i < |changes| && p(changes[i]);
    if changes == [] {
      assert all == {};
    } else {
      var init, n := changes[..|changes| - 1], |changes| - 1;
      CountIsCardinality(init, p);
      assert all == (set i | 0 <= i < |init| && p(init[i])) + if p(changes[n]) then {n} else {};
    }
  }

  /** The record loop. */
  method ParseRecords(records: seq<string>) returns (snapshot: Snapshot)
    ensures Summarises(snapshot, Changes(records, 0))
  {
    ghost var done: seq<ChangedFile> := [];
    snapshot := EMPTY;
    var index := 0;
    while index < |records|
      invariant Changes(records, 0) == done + Changes(records, index)
      invariant Summarises(snapshot, done)
      decreases |records| - index
    {
      var Step(change, next) := ReadRecord(records, index);
      ChangesStep(records, index, done);
      if change.Some? {
        snapshot := PushGitChange(snapshot, change.value, done);
        done := done + [change.value];
      }
      index := next;
    }
    assert Changes(records, 0) == done;
  }

  lemma ChangesStep(records: seq<string>, i: nat, done: seq<ChangedFile>)
    requires i < |records|
    ensures var step := ReadRecord(records, i);
            done + Changes(records, i) ==
              (if step.change.Some? then done + [step.change.value] else done) + Changes(records, step.next)
  {
  }

  // ---- Any record at all, by its pieces ----

  /** `splitn` gives the pieces of `split`, except that the last one it may give holds whatever is left. */
  lemma {:induction false} SplitNByPieces(s: string, n: nat, c: char)
    requires n >= 1
    ensures var all, some := SplitAll(s, c), SplitN(s, n, c);
            && |some| == (if |all| <= n then |all| else n)
            && forall k :: 0 <= k < |some| && (k < n - 1 || |all| <= n) ==> some[k] == all[k]
    decreases |s|
  {
    var i := IndexOf(s, c);
    if n > 1 && i < |s| {
      SplitNByPieces(s[i + 1..], n - 1, c);
    }
  }

  /**
   * Every record, well formed or not: an ordinary one needs 8 pieces and a renamed one 9, of which the
   * first is the status and the last needed one the path; an unmerged one needs 11; an untracked one is
   * taken whole; headers and everything else give nothing. Only a rename that counts takes one more record.
   */
  lemma RecordByPieces(records: seq<string>, i: nat)
    requires i < |records|
    ensures var record := records[i];
            var pieces := if |record| >= 2 then SplitAll(record[2..], ' ') else [];
            var previous := if i + 1 < |records| then Some(records[i + 1]) else None;
            var step := ReadRecord(records, i);
            if "1 " <= record then
              step == Step(if |pieces| >= 8 then Some(GitChangedFile(pieces[7], None, pieces[0])) else None, i + 1)
            else if "2 " <= record then
              if |pieces| >= 9 then step == Step(Some(GitChangedFile(pieces[8], previous, pieces[0])), i + 2)
              else step == Step(None, i + 1)
            else if "u " <= record then
              && step.next == i + 1 && (step.change.Some? <==> |pieces| >= 11)
              && (step.change.Some? ==>
                    step.change.value ==
                    ChangedFile(step.change.value.path, None, Some(Unmerged), Some(Unmerged), true))
            else if "? " <= record then
              step == Step(Some(ChangedFile(record[2..], None, None, Some(Untracked), false)), i + 1)
            else step == Step(None, i + 1)
  {
    var record := records[i];
    if |record| >= 2 {
      SplitNByPieces(record[2..], 9, ' ');
      SplitNByPieces(record[2..], 10, ' ');
      SplitNByPieces(record[2..], 11, ' ');
    }
  }

  const STATUS_LETTERS: string := "AMDRCTU?"
  const STATUS_KINDS: seq<ChangeKind> := [Added, Modified, Deleted, Renamed, Copied, TypeChanged, Unmerged, Untracked]

  /** The kind of a status letter: none for a dot, that of the table, and unknown for any other. */
  ghost predicate LetterMeans(letter: char, kind: Option<ChangeKind>) {
    && (kind.None? <==> letter == '.')
    && (forall i :: 0 <= i < 8 ==> (kind == Some(STATUS_KINDS[i]) <==> letter == STATUS_LETTERS[i]))
    && (kind == Some(Unknown) <==> letter != '.' && letter !in STATUS_LETTERS)
  }

  lemma KindOfLetter(letter: char)
    ensures LetterMeans(letter, GitChangeKind(letter))
  {
    assert STATUS_LETTERS == ['A', 'M', 'D', 'R', 'C', 'T', 'U', '?'];
  }

  /**
   * The status of a change: the first of the two letters is the index, the second the worktree, and a `U`
   * in either is a conflict.
   */
  lemma StatusOfLetters(path: string, previousPath: Option<string>, index: char, worktree: char)
    ensures var c := GitChangedFile(path, previousPath, [index, worktree]);
            && c.path == path && c.previousPath == previousPath
            && LetterMeans(index, c.indexStatus) && LetterMeans(worktree, c.worktreeStatus)
            && (c.conflicted <==> index == 'U' || worktree == 'U')
  {
    KindOfLetter(index);
    KindOfLetter(worktree);
    assert STATUS_KINDS[6] == Unmerged && STATUS_LETTERS[6] == 'U';
  }

  // ---- Printing and parsing back ----

  /** A record as git writes it: the middle fields carry modes, object names and scores. */
  datatype Entry =
    | OrdinaryEntry(xy: string, middle: seq<string>, path: string)
    | RenamedEntry(xy: string, middle: seq<string>, path: string, previousPath: string)
    | UntrackedEntry(path: string)
    | UnmergedEntry(fields: seq<string>, path: string)

  predicate FreeOf(s: string, c: char) { c !in s }

  ghost predicate Printable(e: Entry) {
    match e
    case OrdinaryEntry(xy, middle, path) => PrintableFields([xy] + middle, 7) && FreeOf(path, NUL)
    case RenamedEntry(xy, middle, path, previousPath) =>
      PrintableFields([xy] + middle, 8) && FreeOf(path, NUL) && FreeOf(previousPath, NUL)
    case UntrackedEntry(path) => FreeOf(path, NUL)
    case UnmergedEntry(fields, path) => PrintableFields(fields, 9) && FreeOf(path, NUL)
  }

  ghost predicate PrintableFields(fields: seq<string>, n: nat) {
    |fields| == n && forall k :: 0 <= k < n ==> FreeOf(fields[k], ' ') && FreeOf(fields[k], NUL)
  }

  /** Fields, each followed by a space. */
  function Spaced(fields: seq<string>): string {
    if fields == [] then "" else fields[0] + " " + Spaced(fields[1..])
  }

  /** The records of an entry. */
  function Records(e: Entry): seq<string> {
    match e
    case OrdinaryEntry(xy, middle, path) => ["1 " + Spaced([xy] + middle) + path]
    case RenamedEntry(xy, middle, path, previousPath) => ["2 " + Spaced([xy] + middle) + path, previousPath]
    case UntrackedEntry(path) => ["? " + path]
    case UnmergedEntry(fields, path) => ["u " + Spaced(fields) + path]
  }

  function AllRecords(entries: seq<Entry>): seq<string> {
    if entries == [] then [] else Records(entries[0]) + AllRecords(entries[1..])
  }

  /** How an entry is printed: its letter, its fields and its path; a rename with the previous path behind. */
  lemma PrintedEntry(e: Entry)
    ensures var line := Records(e)[0];
            match e
            case OrdinaryEntry(xy, middle, path) => line == "1 " + xy + " " + Spaced(middle) + path && |Records(e)| == 1
            case RenamedEntry(xy, middle, path, previousPath) =>
              line == "2 " + xy + " " + Spaced(middle) + path && Records(e)[1..] == [previousPath]
            case UntrackedEntry(path) => line == "? " + path && |Records(e)| == 1
            case UnmergedEntry(fields, path) => line == "u " + Spaced(fields) + path && |Records(e)| == 1
  {
    match e
    case OrdinaryEntry(xy, middle, path) => assert ([xy] + middle)[1..] == middle;
    case RenamedEntry(xy, middle, path, previousPath) => assert ([xy] + middle)[1..] == middle;
    case _ =>
  }

  /** Records with a NUL after each. */
  function Terminated(records: seq<string>): string {
    if records == [] then "" else records[0] + [NUL] + Terminated(records[1..])
  }

  function Print(entries: seq<Entry>): string { Terminated(AllRecords(entries)) }

  /** The change git reported. */
  function Reported(e: Entry): ChangedFile {
    match e
    case OrdinaryEntry(xy, _, path) => GitChangedFile(path, None, xy)
    case RenamedEntry(xy, _, path, previousPath) => GitChangedFile(path, Some(previousPath), xy)
    case UntrackedEntry(path) => UntrackedFile(path)
    case UnmergedEntry(_, path) => UnmergedFile(path)
  }

  /**
   * What the parser makes of it: ordinary and renamed paths end at their first space; an unmerged path
   * starts behind its first space, and is lost without one.
   */
  function Parsed(e: Entry): Option<ChangedFile> {
    var path, i := e.path, IndexOf(e.path, ' ');
    match e
    case OrdinaryEntry(_, _, _) => Some(Reported(e).(path := path[..i]))
    case RenamedEntry(_, _, _, _) => Some(Reported(e).(path := path[..i]))
    case UntrackedEntry(_) => Some(Reported(e))
    case UnmergedEntry(_, _) => if i == |path| then None else Some(UnmergedFile(path[i + 1..]))
  }

  /** The parser reports the entry as git does. */
  predicate ParsesBack(e: Entry) {
    match e
    case UntrackedEntry(_) => true
    case UnmergedEntry(_, _) => false
    case _ => FreeOf(e.path, ' ')
  }

  lemma IndexOfAppend(a: string, c: char, b: string)
    requires FreeOf(a, c)
    ensures IndexOf(a + [c] + b, c) == |a| && (a + [c] + b)[..|a|] == a && (a + [c] + b)[|a| + 1..] == b
  {
    var s := a + [c] + b;
    assert s[|a|] == c;
    assert forall k :: 0 <= k < |a| ==> s[k] == a[k];
  }

  lemma SplitNCons(a: string, rest: string, n: nat)
    requires FreeOf(a, ' ') && n >= 2
    ensures SplitN(a + [' '] + rest, n, ' ') == [a] + SplitN(rest, n - 1, ' ')
  {
    IndexOfAppend(a, ' ', rest);
  }

  lemma SplitAllCons(a: string, rest: string)
    requires FreeOf(a, NUL)
    ensures SplitAll(a + [NUL] + rest, NUL) == [a] + SplitAll(rest, NUL)
  {
    IndexOfAppend(a, NUL, rest);
  }

  /** The last two pieces: the path cut at its first space, and whatever comes after that space. */
  function PathPieces(path: string): seq<string> {
    var i := IndexOf(path, ' ');
    if i == |path| then [path] else [path[..i], path[i + 1..]]
  }

  lemma SplitPath(path: string)
    ensures SplitN(path, 2, ' ') == PathPieces(path)
  {
    var i := IndexOf(path, ' ');
    if i < |path| {
      assert SplitN(path[i + 1..], 1, ' ') == [path[i + 1..]];
    }
  }

  lemma ConsAppend(a: seq<string>, b: seq<string>)
    requires a != []
    ensures [a[0]] + (a[1..] + b) == a + b
  {
  }

  lemma SpacedCons(fields: seq<string>, path: string)
    requires fields != []
    ensures Spaced(fields) + path == fields[0] + [' '] + (Spaced(fields[1..]) + path)
  {
  }

  /** Splitting a printed record gives its fields and then the pieces of the path. */
  lemma {:induction false} SplitSpaced(fields: seq<string>, path: string)
    requires forall k :: 0 <= k < |fields| ==> FreeOf(fields[k], ' ')
    ensures SplitN(Spaced(fields) + path, |fields| + 2, ' ') == fields + PathPieces(path)
  {
    if fields == [] {
      assert Spaced(fields) + path == path;
      SplitPath(path);
    } else {
      var rest := Spaced(fields[1..]) + path;
      calc {
        SplitN(Spaced(fields) + path, |fields| + 2, ' ');
        { SpacedCons(fields, path); }
        SplitN(fields[0] + [' '] + rest, |fields| + 2, ' ');
        { SplitNCons(fields[0], rest, |fields| + 2); }
        [fields[0]] + SplitN(rest, |fields[1..]| + 2, ' ');
        { SplitSpaced(fields[1..], path); }
        [fields[0]] + (fields[1..] + PathPieces(path));
        { ConsAppend(fields, PathPieces(path)); }
        fields + PathPieces(path);
      }
    }
  }

  lemma {:induction false} SplitTerminated(records: seq<string>)
    requires forall k :: 0 <= k < |records| ==> FreeOf(records[k], NUL)
    ensures SplitAll(Terminated(records), NUL) == records + [""]
  {
    if records != [] {
      SplitAllCons(records[0], Terminated(records[1..]));
      SplitTerminated(records[1..]);
      ConsAppend(records, [""]);
    }
  }

  lemma {:induction false} RecordsFreeOfNul(entries: seq<Entry>)
    requires AllPrintable(entries)
    ensures forall k :: 0 <= k < |AllRecords(entries)| ==> FreeOf(AllRecords(entries)[k], NUL)
  {
    if entries != [] {
      RecordsFreeOfNul(entries[1..]);
      match entries[0]
      case OrdinaryEntry(xy, middle, path) => SpacedFreeOfNul([xy] + middle);
      case RenamedEntry(xy, middle, path, previousPath) => SpacedFreeOfNul([xy] + middle);
      case UntrackedEntry(path) =>
      case UnmergedEntry(fields, path) => SpacedFreeOfNul(fields);
    }
  }

  lemma {:induction false} SpacedFreeOfNul(fields: seq<string>)
    requires forall k :: 0 <= k < |fields| ==> FreeOf(fields[k], NUL)
    ensures FreeOf(Spaced(fields), NUL)
  {
    if fields != [] {
      SpacedFreeOfNul(fields[1..]);
    }
  }

  /** What the parser makes of one printed entry, wherever it stands and whatever follows. */
  lemma EntryParses(records: seq<string>, i: nat, e: Entry)
    requires Printable(e) && i + |Records(e)| <= |records|
    requires forall k :: 0 <= k < |Records(e)| ==> records[i + k] == Records(e)[k]
    ensures ReadRecord(records, i) == Step(Parsed(e), i + |Records(e)|)
  {
    assert records[i] == Records(e)[0];
    match e {
      case OrdinaryEntry(xy, middle, path) =>
        FieldsParse("1 ", xy, middle, path);
      case RenamedEntry(xy, middle, path, previousPath) =>
        FieldsParse("2 ", xy, middle, path);
        assert records[i + 1] == Records(e)[1] == previousPath;
        assert records[i][0] == '2';
      case UntrackedEntry(path) =>
        assert records[i][0] == '?' && records[i][2..] == path;
      case UnmergedEntry(fields, path) =>
        Untag("u ", Spaced(fields), path);
        UnmergedRecord(fields, path);
        assert records[i][0] == 'u';
    }
  }

  lemma FieldsParse(tag: string, xy: string, middle: seq<string>, path: string)
    requires |tag| == 2 && PrintableFields([xy] + middle, |middle| + 1)
    ensures var record := tag + Spaced([xy] + middle) + path;
            && tag <= record
            && ParseFields(record[2..], |middle| + 3) == Some(GitChangedFile(path[..IndexOf(path, ' ')], None, xy))
  {
    var fields := [xy] + middle;
    Untag(tag, Spaced(fields), path);
    FirstAndPath(fields, path);
  }

  lemma Untag(tag: string, a: string, b: string)
    ensures tag <= tag + a + b && (tag + a + b)[|tag|..] == a + b
  {
  }

  lemma FirstAndPath(fields: seq<string>, path: string)
    requires fields != [] && forall k :: 0 <= k < |fields| ==> FreeOf(fields[k], ' ')
    ensures var pieces := SplitN(Spaced(fields) + path, |fields| + 2, ' ');
            |pieces| > |fields| && pieces[0] == fields[0] && pieces[|fields|] == path[..IndexOf(path, ' ')]
  {
    SplitSpaced(fields, path);
    assert path[..|path|] == path;
  }

  /** The changes of a list of entries. */
  function ParsedAll(entries: seq<Entry>): seq<ChangedFile> {
    if entries == [] then [] else OptionToSeq(Parsed(entries[0])) + ParsedAll(entries[1..])
  }

  lemma {:induction false} EntriesParse(records: seq<string>, i: nat, entries: seq<Entry>)
    requires AllPrintable(entries)
    requires i < |records| && records[i..] == AllRecords(entries) + [""]
    ensures Changes(records, i) == ParsedAll(entries)
    decreases |entries|
  {
    if entries == [] {
      EndOfRecords(records, i);
    } else {
      AllRecordsCons(entries, [""]);
      FirstEntryParses(records, i, entries[0], AllRecords(entries[1..]) + [""]);
      EntriesParse(records, i + |Records(entries[0])|, entries[1..]);
    }
  }

  lemma AllRecordsCons(entries: seq<Entry>, end: seq<string>)
    requires entries != []
    ensures AllRecords(entries) + end == Records(entries[0]) + (AllRecords(entries[1..]) + end)
  {
  }

  lemma EndOfRecords(records: seq<string>, i: nat)
    requires i < |records| && records[i..] == [""]
    ensures Changes(records, i) == []
  {
    assert records[i] == records[i..][0] == "" && |records[i..]| == 1;
    assert Changes(records, i + 1) == [];
  }

  /** The entry at the head is parsed, and the rest is parsed from behind its records. */
  lemma FirstEntryParses(records: seq<string>, i: nat, e: Entry, rest: seq<string>)
    requires Printable(e) && i <= |records| && records[i..] == Records(e) + rest
    ensures i + |Records(e)| <= |records| && records[i + |Records(e)|..] == rest
    ensures Changes(records, i) == OptionToSeq(Parsed(e)) + Changes(records, i + |Records(e)|)
  {
    RecordsAhead(records, i, Records(e), rest);
    EntryParses(records, i, e);
  }

  lemma RecordsAhead(records: seq<string>, i: nat, head: seq<string>, rest: seq<string>)
    requires i <= |records| && records[i..] == head + rest
    ensures i + |head| <= |records| && records[i + |head|..] == rest
    ensures forall k :: 0 <= k < |head| ==> records[i + k] == head[k]
  {
    forall k | 0 <= k < |head| ensures records[i + k] == head[k] {
      assert records[i + k] == records[i..][k];
    }
    assert records[i + |head|..] == records[i..][|head|..];
  }

  /** Printing any list of entries and parsing it gives what each entry is parsed to, in order. */
  lemma PrintThenParse(entries: seq<Entry>)
    requires AllPrintable(entries)
    ensures Changes(SplitAll(Print(entries), NUL), 0) == ParsedAll(entries)
  {
    RecordsFreeOfNul(entries);
    SplitTerminated(AllRecords(entries));
    EntriesParse(AllRecords(entries) + [""], 0, entries);
  }

  function ReportedAll(entries: seq<Entry>): seq<ChangedFile> {
    seq(|entries|, k requires 0 <= k < |entries| => Reported(entries[k]))
  }

  /**
   * The round trip: for every list of entries the parser returns what git reported exactly when every
   * entry is untracked, or ordinary or renamed with a path without spaces. The previous path of a
   * rename may be anything, even text that looks like a record; unmerged entries never parse back.
   */
  lemma RoundTripExactly(entries: seq<Entry>)
    requires AllPrintable(entries)
    ensures Changes(SplitAll(Print(entries), NUL), 0) == ReportedAll(entries) <==>
            forall k :: 0 <= k < |entries| ==> ParsesBack(entries[k])
  {
    PrintThenParse(entries);
    ParsedAllExactly(entries);
  }

  lemma ParsedExactly(e: Entry)
    ensures Parsed(e) == Some(Reported(e)) <==> ParsesBack(e)
  {
    var path, i := e.path, IndexOf(e.path, ' ');
    assert FreeOf(path, ' ') <==> i == |path|;
    assert path[..|path|] == path;
    if i < |path| {
      assert |path[..i]| < |path| && |path[i + 1..]| < |path|;
    }
  }

  lemma {:induction false} ParsedAllExactly(entries: seq<Entry>)
    ensures |ParsedAll(entries)| <= |entries|
    ensures ParsedAll(entries) == ReportedAll(entries) <==> forall k :: 0 <= k < |entries| ==> ParsesBack(entries[k])
  {
    if entries != [] {
      var e, rest := entries[0], entries[1..];
      ParsedExactly(e);
      ParsedAllExactly(rest);
      assert ReportedAll(entries) == [Reported(e)] + ReportedAll(rest);
      if Parsed(e).Some? {
        assert ParsedAll(entries) == [Parsed(e).value] + ParsedAll(rest);
        assert ParsedAll(entries)[1..] == ParsedAll(rest) && ReportedAll(entries)[1..] == ReportedAll(rest);
      }
      assert (forall k :: 0 <= k < |entries| ==> ParsesBack(entries[k])) <==>
          ParsesBack(e) && forall k :: 0 <= k < |rest| ==> ParsesBack(rest[k]);
    }
  }

  /**
   * Unmerged entries anywhere in a list (nine fields and the path): each gives a change exactly when its
   * path has a space, and then for the part of the path behind it.
   */
  lemma UnmergedExactly(before: seq<Entry>, fields: seq<string>, path: string, after: seq<Entry>)
    requires AllPrintable(before + [UnmergedEntry(fields, path)] + after)
    ensures Changes(SplitAll(Print(before + [UnmergedEntry(fields, path)] + after), NUL), 0) ==
            ParsedAll(before) + BehindFirstSpace(path) + ParsedAll(after)
  {
    var e := UnmergedEntry(fields, path);
    PrintThenParse(before + [e] + after);
    ParsedAround(before, e, after);
    ParsedUnmerged(fields, path);
  }

  ghost predicate AllPrintable(entries: seq<Entry>) { forall k :: 0 <= k < |entries| ==> Printable(entries[k]) }

  /** The change for what follows the first space, if there is one. */
  function BehindFirstSpace(path: string): seq<ChangedFile> {
    if FreeOf(path, ' ') then [] else [UnmergedFile(path[IndexOf(path, ' ') + 1..])]
  }

  lemma ParsedUnmerged(fields: seq<string>, path: string)
    ensures OptionToSeq(Parsed(UnmergedEntry(fields, path))) == BehindFirstSpace(path)
  {
    assert FreeOf(path, ' ') <==> IndexOf(path, ' ') == |path|;
  }

  lemma ParsedAround(before: seq<Entry>, e: Entry, after: seq<Entry>)
    ensures ParsedAll(before + [e] + after) == ParsedAll(before) + OptionToSeq(Parsed(e)) + ParsedAll(after)
  {
    ParsedAllAppend(before + [e], after);
    ParsedAllAppend(before, [e]);
    assert ParsedAll([e]) == OptionToSeq(Parsed(e)) + ParsedAll([]);
  }

  lemma {:induction false} ParsedAllAppend(a: seq<Entry>, b: seq<Entry>)
    ensures ParsedAll(a + b) == ParsedAll(a) + ParsedAll(b)
  {
    if a == [] {
      assert a + b == b;
    } else {
      var head := OptionToSeq(Parsed(a[0]));
      calc {
        ParsedAll(a + b);
        { assert (a + b)[0] == a[0] && (a + b)[1..] == a[1..] + b; }
        head + ParsedAll(a[1..] + b);
        { ParsedAllAppend(a[1..], b); }
        head + (ParsedAll(a[1..]) + ParsedAll(b));
        (head + ParsedAll(a[1..])) + ParsedAll(b);
      }
    }
  }

  lemma UnmergedRecord(fields: seq<string>, path: string)
    requires |fields| == 9 && forall k :: 0 <= k < 9 ==> FreeOf(fields[k], ' ')
    ensures ParseUnmerged(Spaced(fields) + path) == Parsed(UnmergedEntry(fields, path))
  {
    LastPiece(fields, path);
  }

  /** The piece behind the fields and the first part of the path, which is there exactly if the path has a space. */
  lemma LastPiece(fields: seq<string>, path: string)
    requires forall k :: 0 <= k < |fields| ==> FreeOf(fields[k], ' ')
    ensures var pieces, i := SplitN(Spaced(fields) + path, |fields| + 2, ' '), IndexOf(path, ' ');
            if i == |path| then |pieces| == |fields| + 1
            else |pieces| == |fields| + 2 && pieces[|fields| + 1] == path[i + 1..]
  {
    SplitSpaced(fields, path);
    var p := PathPieces(path);
    assert |p| == 2 ==> (fields + p)[|fields| + 1] == p[1];
  }
}
