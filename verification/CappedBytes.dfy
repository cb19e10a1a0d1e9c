/**
 * The byte collectors: the process readers of `workspace.rs`, `support.rs` and `task.rs`, and the
 * line collector of `provider.rs`. Each holds the first `cap` bytes of its whole stream, however the
 * stream is cut into reads.
 */
module CappedBytes {
  import opened Collections

  const NEWLINE: Byte := 10

  /** What every collector promises about the stream it has seen. */
  ghost predicate HoldsFirst(kept: seq<Byte>, truncated: bool, stream: seq<Byte>, cap: nat) {
    && kept == First(stream, cap)
    && (truncated <==> |stream| > cap)
  }

  /** Taking what still fits of the next chunk keeps the promise. */
  lemma TakeKeepsFirst(kept: seq<Byte>, truncated: bool, stream: seq<Byte>, cap: nat, chunk: seq<Byte>, take: nat)
    requires HoldsFirst(kept, truncated, stream, cap)
    requires take == if |chunk| <= cap - |kept| then |chunk| else cap - |kept|
    ensures HoldsFirst(kept + chunk[..take], truncated || take < |chunk|, stream + chunk, cap)
  {
    if truncated {
      assert chunk[..0] == [] && (stream + chunk)[..cap] == stream[..cap];
    } else if take == |chunk| {
      assert chunk[..take] == chunk;
    } else {
      assert (stream + chunk)[..cap] == stream + chunk[..take];
    }
  }

  /** `read_capped_process_output`: reads to the end, keeps only the first `cap` bytes. */
  method ReadCappedProcessOutput(chunks: seq<seq<Byte>>, cap: nat) returns (collected: seq<Byte>, truncated: bool)
    requires forall i :: 0 <= i < |chunks| ==> |chunks[i]| > 0  // a read of no bytes is the end
    ensures HoldsFirst(collected, truncated, Flatten(chunks), cap)
  {
    collected, truncated := [], false;
    for i := 0 to |chunks|
      invariant HoldsFirst(collected, truncated, Flatten(chunks[..i]), cap)
    {
      var read := chunks[i];
      var remaining := cap - |collected|;
      FlattenPrefix(chunks, i);
      if remaining > 0 {
        var keep := if |read| <= remaining then |read| else remaining;
        TakeKeepsFirst(collected, truncated, Flatten(chunks[..i]), cap, read, keep);
        collected := collected + read[..keep];
        truncated := truncated || keep < |read|;
      } else {
        TakeKeepsFirst(collected, truncated, Flatten(chunks[..i]), cap, read, 0);
        assert collected + read[..0] == collected;
        truncated := true;
      }
    }
    assert chunks[..|chunks|] == chunks;
  }

  /** The read loop of `capped_git_status`. */
  method CappedGitStatus(chunks: seq<seq<Byte>>, cap: nat) returns (captured: seq<Byte>, truncated: bool)
    ensures HoldsFirst(captured, truncated, Flatten(chunks), cap)
  {
    captured, truncated := [], false;
    for i := 0 to |chunks|
      invariant HoldsFirst(captured, truncated, Flatten(chunks[..i]), cap)
    {
      var remaining := cap - |captured|;
      var retained := if remaining <= |chunks[i]| then remaining else |chunks[i]|;
      FlattenPrefix(chunks, i);
      TakeKeepsFirst(captured, truncated, Flatten(chunks[..i]), cap, chunks[i], retained);
      captured := captured + chunks[i][..retained];
      truncated := truncated || retained < |chunks[i]|;
    }
    assert chunks[..|chunks|] == chunks;
  }

  datatype GitOutput = Output(bytes: seq<Byte>, truncated: bool) | DiffFailed

  /** `git_output_capped`: stops at the first byte too many; a failing exit counts only without a cut. */
  method GitOutputCapped(chunks: seq<seq<Byte>>, cap: nat, exitOk: bool) returns (r: GitOutput)
    ensures r.DiffFailed? <==> !exitOk && |Flatten(chunks)| <= cap
    ensures r.Output? ==> HoldsFirst(r.bytes, r.truncated, Flatten(chunks), cap)
  {
    var retained: seq<Byte>, truncated := [], false;
    var i := 0;
    while i < |chunks|
      invariant 0 <= i <= |chunks|
      invariant !truncated && HoldsFirst(retained, truncated, Flatten(chunks[..i]), cap)
    {
      var remaining := cap - |retained|;
      var take := if remaining <= |chunks[i]| then remaining else |chunks[i]|;
      FlattenPrefix(chunks, i);
      TakeKeepsFirst(retained, truncated, Flatten(chunks[..i]), cap, chunks[i], take);
      retained := retained + chunks[i][..take];
      i := i + 1;
      if take < |chunks[i - 1]| {
        truncated := true;
        break;
      }
    }
    FlattenSplit(chunks, i);
    assert i == |chunks| ==> chunks[..i] == chunks;
    LaterBytesDoNotMatter(retained, truncated, Flatten(chunks[..i]), cap, Flatten(chunks[i..]));
    if !exitOk && !truncated {
      return DiffFailed;
    }
    r := Output(retained, truncated);
  }

  /** Once the cap is exceeded, what follows changes nothing. */
  lemma LaterBytesDoNotMatter(kept: seq<Byte>, truncated: bool, stream: seq<Byte>, cap: nat, later: seq<Byte>)
    requires HoldsFirst(kept, truncated, stream, cap)
    ensures truncated ==> HoldsFirst(kept, truncated, stream + later, cap)
  {
    if truncated {
      assert (stream + later)[..cap] == stream[..cap];
    }
  }

  // ---- Lines ----

  /** Lines as the process wrote them, each with its newline. */
  function LineStream(lines: seq<seq<Byte>>): seq<Byte> {
    if lines == [] then []
    else LineStream(lines[..|lines| - 1]) + lines[|lines| - 1] + [NEWLINE]
  }

  /** `append_capped_process_line`. */
  method AppendCappedProcessLine(
    output: seq<Byte>, line: seq<Byte>, maxBytes: nat, truncated: bool, ghost stream: seq<Byte>)
    returns (out: seq<Byte>, cut: bool)
    requires HoldsFirst(output, truncated, stream, maxBytes)
    ensures HoldsFirst(out, cut, stream + line + [NEWLINE], maxBytes)
  {
    out, cut := output, truncated;
    ghost var full := stream + line + [NEWLINE];
    if maxBytes == 0 {
      return output, true;
    }
    var remaining := maxBytes - |output|;
    if remaining == 0 {
      assert full[..maxBytes] == stream[..maxBytes];
      return output, true;
    }
    var copied := if |line| <= remaining then |line| else remaining;
    out := output + line[..copied];
    if copied < |line| {
      assert full[..maxBytes] == stream + line[..copied];
      return out, true;
    }
    assert line[..copied] == line;
    if |out| < maxBytes {
      out := out + [NEWLINE];
    } else {
      assert full[..maxBytes] == stream + line;
      cut := true;
    }
  }

  /** A whole process: the kept bytes are the first bytes of all its lines. */
  method CollectLines(lines: seq<seq<Byte>>, maxBytes: nat) returns (output: seq<Byte>, truncated: bool)
    ensures HoldsFirst(output, truncated, LineStream(lines), maxBytes)
  {
    output, truncated := [], false;
    for i := 0 to |lines|
      invariant HoldsFirst(output, truncated, LineStream(lines[..i]), maxBytes)
    {
      assert lines[..i + 1][..i] == lines[..i];
      output, truncated := AppendCappedProcessLine(output, lines[i], maxBytes, truncated, LineStream(lines[..i]));
    }
    assert lines[..|lines|] == lines;
  }
}
