/**
 * The bounded replay buffer of a workspace terminal (`record_terminal_replay`, the read branch of
 * `run_workspace_terminal` and `attach`). The offline meaning is "the longest suffix of all output
 * that respects both limits".
 */
module TerminalReplay {
  import opened Collections
  import opened CappedText

  const MAX_REPLAY_FRAMES: nat := 256
  const MAX_REPLAY_BYTES: nat := 256 * 1024

  datatype OutputFrame = OutputFrame(seqNo: nat, data: string)

  /** `terminal_replay_bytes`. */
  function ReplayBytes(frames: seq<OutputFrame>): nat {
    if frames == [] then 0 else Bytes(frames[0].data) + ReplayBytes(frames[1..])
  }

  predicate WithinLimits(frames: seq<OutputFrame>) {
    |frames| <= MAX_REPLAY_FRAMES && ReplayBytes(frames) <= MAX_REPLAY_BYTES
  }

  lemma {:induction false} ReplayBytesAppend(a: seq<OutputFrame>, b: seq<OutputFrame>)
    ensures ReplayBytes(a + b) == ReplayBytes(a) + ReplayBytes(b)
  {
    if a == [] {
      assert a + b == b;
    } else {
      ReplayBytesAppend(a[1..], b);
      assert (a + b)[1..] == a[1..] + b;
    }
  }

  lemma ReplayBytesOfOne(frame: OutputFrame)
    ensures ReplayBytes([frame]) == Bytes(frame.data)
  {
    assert ReplayBytes([frame]) == Bytes(frame.data) + ReplayBytes([]);
  }

  lemma LimitsAreHereditary()
    ensures Hereditary(WithinLimits)
  {
    forall a: seq<OutputFrame>, b: seq<OutputFrame> | WithinLimits(a + b)
      ensures WithinLimits(a) && WithinLimits(b)
    {
      ReplayBytesAppend(a, b);
    }
  }

  /** The eviction loop of `record_terminal_replay`, for frames of any size. */
  method Evict(pushed: seq<OutputFrame>) returns (replay: seq<OutputFrame>)
    ensures IsLongestSuffix(WithinLimits, pushed, replay)
  {
    replay := pushed;
    while |replay| > MAX_REPLAY_FRAMES || ReplayBytes(replay) > MAX_REPLAY_BYTES
      invariant |replay| <= |pushed| && replay == Last(pushed, |replay|)
      invariant forall k :: |replay| < k <= |pushed| ==> !WithinLimits(Last(pushed, k))
      decreases |replay|
    {
      assert Last(pushed, |replay| - 1) == replay[1..];
      replay := replay[1..];
    }
  }

  // ---- Lossy decoding ----

  /** A piece of decoded input: a well-formed character, or a replacement for 1 to 3 bad bytes. */
  datatype Piece = WellFormed(c: char) | Replaced(badBytes: nat)

  const REPLACEMENT: char := '\U{FFFD}'

  ghost predicate Decodable(pieces: seq<Piece>) {
    forall i :: 0 <= i < |pieces| && pieces[i].Replaced? ==> 1 <= pieces[i].badBytes <= 3
  }

  /** Bytes read from the terminal for these pieces. */
  function Consumed(pieces: seq<Piece>): nat {
    if pieces == [] then 0
    else (match pieces[0] case WellFormed(c) => Width(c) case Replaced(n) => n) + Consumed(pieces[1..])
  }

  function Decoded(pieces: seq<Piece>): string {
    if pieces == [] then ""
    else [if pieces[0].WellFormed? then pieces[0].c else REPLACEMENT] + Decoded(pieces[1..])
  }

  /** Lossy decoding at most triples the input. */
  lemma {:induction false} LossyAtMostTriples(pieces: seq<Piece>)
    requires Decodable(pieces)
    ensures Bytes(Decoded(pieces)) <= 3 * Consumed(pieces)
  {
    if pieces != [] {
      LossyAtMostTriples(pieces[1..]);
      assert Decoded(pieces)[1..] == Decoded(pieces[1..]);
    }
  }

  // ---- The terminal ----

  datatype Message = GapNotice | Output(frame: OutputFrame)

  /** `record_terminal_replay`, for a frame of any size: trimming the buffer is trimming the whole history. */
  method RecordTerminalReplay(replay: seq<OutputFrame>, frame: OutputFrame, ghost history: seq<OutputFrame>)
    returns (kept: seq<OutputFrame>)
    requires IsLongestSuffix(WithinLimits, history, replay)
    ensures IsLongestSuffix(WithinLimits, history + [frame], kept)
    ensures kept != [] <==> Bytes(frame.data) <= MAX_REPLAY_BYTES
  {
    LimitsAreHereditary();
    kept := Evict(replay + [frame]);
    LongestSuffixExtends(WithinLimits, history, replay, [frame], kept);
    NewestKept(history + [frame], kept);
  }

  /** Numbered from one, without gaps. */
  ghost predicate InOrder(history: seq<OutputFrame>) {
    forall i :: 0 <= i < |history| ==> history[i].seqNo == i + 1
  }

  lemma InOrderNext(history: seq<OutputFrame>, frame: OutputFrame)
    requires InOrder(history) && frame.seqNo == |history| + 1
    ensures InOrder(history + [frame])
  {
  }

  class WorkspaceTerminal {
    var replay: seq<OutputFrame>
    var seqNo: nat
    ghost var history: seq<OutputFrame>

    /** The replay refines the complete history, and the newest output is in it. */
    ghost predicate Valid()
      reads this
    {
      && seqNo == |history|
      && InOrder(history)
      && IsLongestSuffix(WithinLimits, history, replay)
      && (history != [] ==> replay != [])
    }

    constructor ()
      ensures Valid() && history == []
    {
      replay, seqNo, history := [], 0, [];
    }

    /** The read branch of `run_workspace_terminal`, the only place that records output. */
    method ReadOutput(pieces: seq<Piece>)
      requires Valid()
      requires Decodable(pieces) && Consumed(pieces) <= 4096
      modifies this
      ensures Valid() && history == old(history) + [OutputFrame(old(|history|) + 1, Decoded(pieces))]
      ensures replay != [] && replay[|replay| - 1] == history[|history| - 1]
      ensures |replay| <= 256 && ReplayBytes(replay) <= 262_144
      ensures |replay| < |history| ==> |replay| == 256 || ReplayBytes(Last(history, |replay| + 1)) > 262_144
    {
      LossyAtMostTriples(pieces);
      seqNo := seqNo + 1;
      var frame := OutputFrame(seqNo, Decoded(pieces));
      InOrderNext(history, frame);
      var kept := RecordTerminalReplay(replay, frame, history);
      NewestKept(history + [frame], kept);
      replay, history := kept, history + [frame];
      assert |replay| < |history| ==> !WithinLimits(Last(history, |replay| + 1));
    }

    /** `attach`: the replay in order, after a gap notice exactly when output was dropped. */
    method Attach() returns (messages: seq<Message>)
      requires Valid()
      ensures messages == (if |replay| < |history| then [GapNotice] else []) + Replayed(replay)
      ensures GapNotice in messages <==> |replay| < |history|
      ensures |messages| >= |replay| && forall k :: 0 <= k < |replay| ==>
                messages[|messages| - |replay| + k] == Output(replay[k])
    {
      ReplayIsConsecutive(history, replay);
      OnlyOutput(replay);
      ReplayedAt(replay);
      messages := AttachMessages(replay);
    }
  }

  /** What a terminal replays depends on nothing but its output so far. */
  lemma ReplayDetermined(a: WorkspaceTerminal, b: WorkspaceTerminal)
    requires a.Valid() && b.Valid() && a.history == b.history
    ensures a.replay == b.replay
  {
    LongestSuffixUnique(WithinLimits, a.history, a.replay, b.replay);
  }

  lemma {:induction false} ReplayedAt(frames: seq<OutputFrame>)
    ensures |Replayed(frames)| == |frames|
    ensures forall k :: 0 <= k < |frames| ==> Replayed(frames)[k] == Output(frames[k])
  {
    if frames != [] {
      ReplayedAt(frames[..|frames| - 1]);
    }
  }

  lemma {:induction false} OnlyOutput(frames: seq<OutputFrame>)
    ensures GapNotice !in Replayed(frames)
  {
    if frames != [] {
      OnlyOutput(frames[..|frames| - 1]);
    }
  }

  function Replayed(frames: seq<OutputFrame>): seq<Message> {
    if frames == [] then []
    else Replayed(frames[..|frames| - 1]) + [Output(frames[|frames| - 1])]
  }

  /** The body of `attach` for a known terminal. */
  method AttachMessages(replay: seq<OutputFrame>) returns (messages: seq<Message>)
    ensures messages == (if replay != [] && replay[0].seqNo > 1 then [GapNotice] else []) + Replayed(replay)
  {
    messages := [];
    if replay != [] && replay[0].seqNo > 1 {
      messages := [GapNotice];
    }
    ghost var notice := messages;
    for i := 0 to |replay|
      invariant messages == notice + Replayed(replay[..i])
    {
      assert replay[..i + 1][..i] == replay[..i];
      messages := messages + [Output(replay[i])];
    }
    assert replay[..|replay|] == replay;
  }

  /** The replay is empty only if the newest frame alone breaks the byte limit. */
  lemma NewestKept(history: seq<OutputFrame>, replay: seq<OutputFrame>)
    requires history != [] && IsLongestSuffix(WithinLimits, history, replay)
    ensures replay == [] <==> Bytes(history[|history| - 1].data) > MAX_REPLAY_BYTES
    ensures replay != [] ==> replay[|replay| - 1] == history[|history| - 1]
  {
    var newest := history[|history| - 1];
    assert Last(history, 1) == [newest];
    assert ReplayBytes([newest]) == Bytes(newest.data);
    if replay != [] {
      assert replay == replay[..|replay| - 1] + [newest];
      ReplayBytesAppend(replay[..|replay| - 1], [newest]);
    }
  }

  /** The sequence numbers of a replay are consecutive and end at the newest frame. */
  lemma ReplayIsConsecutive(history: seq<OutputFrame>, replay: seq<OutputFrame>)
    requires InOrder(history) && IsLongestSuffix(WithinLimits, history, replay)
    ensures forall i :: 0 <= i < |replay| ==> replay[i].seqNo == |history| - |replay| + i + 1
    ensures replay != [] ==> (replay[0].seqNo > 1 <==> |replay| < |history|)
  {
    forall i | 0 <= i < |replay| ensures replay[i].seqNo == |history| - |replay| + i + 1 {
      assert replay[i] == history[|history| - |replay| + i];
    }
  }
}
