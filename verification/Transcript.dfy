/**
 * The Codex transcript of a session (`record_codex_transcript_turn`, `trim_codex_transcript`) and the
 * choice of context for the next prompt (`codex_exec_prompt`). Both are greedy loops; both compute
 * the longest suffix within a budget.
 */
module Transcript {
  import opened Collections

  const MAX_MESSAGES: nat := 20
  const MAX_CHARS: nat := 12_000

  datatype Message = Message(role: string, content: string)

  /** Characters of the messages, plus `overhead` for each. */
  function Chars(messages: seq<Message>, overhead: nat): nat {
    if messages == [] then 0
    else |messages[0].role| + |messages[0].content| + overhead + Chars(messages[1..], overhead)
  }

  lemma {:induction false} CharsAppend(a: seq<Message>, b: seq<Message>, overhead: nat)
    ensures Chars(a + b, overhead) == Chars(a, overhead) + Chars(b, overhead)
  {
    if a == [] {
      assert a + b == b;
    } else {
      CharsAppend(a[1..], b, overhead);
      assert (a + b)[1..] == a[1..] + b;
    }
  }

  lemma CharsOfOne(m: Message, overhead: nat)
    ensures Chars([m], overhead) == |m.role| + |m.content| + overhead
  {
    assert Chars([m], overhead) == |m.role| + |m.content| + overhead + Chars([], overhead);
  }

  /**
   * t is the end of `all`, is within the limits, and one more message would break them: at most 20
   * messages, and at most `always` of them or at most 12000 characters on top of `used`.
   */
  ghost predicate IsLongestEnd(all: seq<Message>, t: seq<Message>, overhead: nat, used: nat, always: nat) {
    && |t| <= |all| && t == all[|all| - |t|..]
    && |t| <= 20 && (|t| <= always || Chars(t, overhead) + used <= 12_000)
    && (|t| < |all| && |t| < 20 ==>
          |t| >= always && Chars(all[|all| - |t| - 1..], overhead) + used > 12_000)
  }

  // ---- The stored transcript ----

  /** At most 20 messages, and within the character budget unless only one exchange is left. */
  predicate Storable(t: seq<Message>) {
    |t| <= MAX_MESSAGES && (|t| <= 2 || Chars(t, 0) <= MAX_CHARS)
  }

  lemma StorableIsHereditary()
    ensures Hereditary(Storable)
  {
    forall a: seq<Message>, b: seq<Message> | Storable(a + b) ensures Storable(a) && Storable(b) {
      CharsAppend(a, b, 0);
    }
  }

  /** `trim_codex_transcript`. */
  method TrimCodexTranscript(transcript: seq<Message>) returns (t: seq<Message>)
    ensures IsLongestSuffix(Storable, transcript, t)
  {
    t := transcript;
    if |t| > MAX_MESSAGES {
      var overflow := |t| - MAX_MESSAGES;
      t := t[overflow..];
    }
    while |t| > 2 && Chars(t, 0) > MAX_CHARS
      invariant |t| <= |transcript| && |t| <= MAX_MESSAGES && t == Last(transcript, |t|)
      invariant forall k :: |t| < k <= |transcript| ==> !Storable(Last(transcript, k))
    {
      assert Last(transcript, |t| - 1) == t[1..];
      t := t[1..];
    }
  }

  /** One exchange. */
  function Turn(user: string, assistant: string): seq<Message> {
    [Message("user", user), Message("assistant", assistant)]
  }

  /** The last two messages are this exchange. */
  ghost predicate EndsWithTurn(t: seq<Message>, user: string, assistant: string) {
    && |t| >= 2
    && t[|t| - 2] == Message("user", user) && t[|t| - 1] == Message("assistant", assistant)
  }

  ghost predicate AllTrimmed(transcripts: map<string, seq<Message>>, recorded: map<string, seq<Message>>) {
    && transcripts.Keys == recorded.Keys
    && forall s :: s in transcripts ==> IsLongestSuffix(Storable, recorded[s], transcripts[s])
  }

  lemma TrimmedNext(
    transcripts: map<string, seq<Message>>, recorded: map<string, seq<Message>>, session: string,
    all: seq<Message>, kept: seq<Message>)
    requires AllTrimmed(transcripts, recorded) && IsLongestSuffix(Storable, all, kept)
    ensures AllTrimmed(transcripts[session := kept], recorded[session := all])
  {
  }

  /** The transcripts of all sessions of a Node, trimmed after every recorded turn. */
  class TranscriptStore {
    var transcripts: map<string, seq<Message>>
    ghost var recorded: map<string, seq<Message>>

    /** Every stored transcript is the longest storable suffix of everything recorded for it. */
    ghost predicate Valid()
      reads this
    {
      AllTrimmed(transcripts, recorded)
    }

    constructor ()
      ensures Valid() && recorded == map[]
    {
      transcripts, recorded := map[], map[];
    }

    /** `record_codex_transcript_turn`. */
    method RecordTurn(session: string, user: string, assistant: string)
      requires Valid()
      modifies this
      ensures Valid()
      ensures recorded == old(recorded)[session :=
                (if session in old(recorded) then old(recorded)[session] else []) +
                [Message("user", user), Message("assistant", assistant)]]
      ensures exists kept ::
                && transcripts == old(transcripts)[session := kept] && IsLongestEnd(recorded[session], kept, 0, 0, 2)
                && EndsWithTurn(kept, user, assistant)
    {
      transcripts, recorded := Recorded(transcripts, recorded, session, user, assistant);
    }
  }

  /** The maps after one more recorded turn. */
  method Recorded(
    transcripts: map<string, seq<Message>>, ghost recorded: map<string, seq<Message>>, session: string,
    user: string, assistant: string)
    returns (after: map<string, seq<Message>>, ghost all: map<string, seq<Message>>)
    requires AllTrimmed(transcripts, recorded)
    ensures AllTrimmed(after, all)
    ensures all == recorded[session :=
              (if session in recorded then recorded[session] else []) +
              [Message("user", user), Message("assistant", assistant)]]
    ensures exists kept ::
              && after == transcripts[session := kept] && IsLongestEnd(all[session], kept, 0, 0, 2)
              && EndsWithTurn(kept, user, assistant)
  {
    var transcript := if session in transcripts then transcripts[session] else [];
    ghost var before := if session in recorded then recorded[session] else [];
    var kept := AddTurn(transcript, user, assistant, before);
    ghost var whole := before + [Message("user", user), Message("assistant", assistant)];
    TrimmedNext(transcripts, recorded, session, whole, kept);
    after, all := transcripts[session := kept], recorded[session := whole];
    assert after == transcripts[session := kept] && IsLongestEnd(all[session], kept, 0, 0, 2);
  }

  lemma StorableEnd(all: seq<Message>, t: seq<Message>)
    requires IsLongestSuffix(Storable, all, t)
    ensures IsLongestEnd(all, t, 0, 0, 2)
  {
    if |t| < |all| {
      assert !Storable(Last(all, |t| + 1));
    }
  }

  /** One exchange added and trimmed. */
  method AddTurn(transcript: seq<Message>, user: string, assistant: string, ghost before: seq<Message>)
    returns (kept: seq<Message>)
    requires IsLongestSuffix(Storable, before, transcript)
    ensures IsLongestSuffix(Storable, before + [Message("user", user), Message("assistant", assistant)], kept)
    ensures IsLongestEnd(before + [Message("user", user), Message("assistant", assistant)], kept, 0, 0, 2)
    ensures EndsWithTurn(kept, user, assistant)
  {
    ghost var turn := Turn(user, assistant);
    kept := TrimCodexTranscript(transcript + Turn(user, assistant));
    StorableIsHereditary();
    LongestSuffixExtends(Storable, before, transcript, turn, kept);
    StorableEnd(before + turn, kept);
    TurnAtEnd(before, user, assistant, kept);
  }

  lemma TurnAtEnd(before: seq<Message>, user: string, assistant: string, kept: seq<Message>)
    requires IsLongestSuffix(Storable, before + Turn(user, assistant), kept)
    ensures EndsWithTurn(kept, user, assistant)
  {
    var all := before + Turn(user, assistant);
    LastExchangeKept(all, kept);
    assert Last(kept, 2)[0] == kept[|kept| - 2] && Last(kept, 2)[1] == kept[|kept| - 1];
    assert Last(all, 2)[0] == all[|all| - 2] && Last(all, 2)[1] == all[|all| - 1];
  }

  /** The newest exchange always survives, however long it is. */
  lemma LastExchangeKept(transcript: seq<Message>, t: seq<Message>)
    requires |transcript| >= 2 && IsLongestSuffix(Storable, transcript, t)
    ensures |t| >= 2 && Last(t, 2) == Last(transcript, 2)
  {
    assert Storable(Last(transcript, 2));
  }

  // ---- The prompt ----

  /** At most 20 messages, and either a single one or everything together within the budget. */
  predicate Affordable(contentChars: nat, t: seq<Message>) {
    |t| <= MAX_MESSAGES && (|t| <= 1 || Chars(t, 4) + contentChars <= MAX_CHARS)
  }

  /** The selection loop of `codex_exec_prompt`, from the newest message backwards. */
  method SelectContext(contentChars: nat, transcript: seq<Message>) returns (selected: seq<Message>)
    ensures IsLongestSuffix((t: seq<Message>) => Affordable(contentChars, t), transcript, selected)
    ensures IsLongestEnd(transcript, selected, 4, contentChars, 1)
  {
    selected := Select(contentChars, transcript);
    if |selected| < |transcript| {
      assert !Affordable(contentChars, Last(transcript, |selected| + 1));
    }
  }

  method Select(contentChars: nat, transcript: seq<Message>) returns (selected: seq<Message>)
    ensures IsLongestSuffix((t: seq<Message>) => Affordable(contentChars, t), transcript, selected)
  {
    selected := [];
    var contextChars := 0;
    var i := |transcript|;
    while i > 0
      invariant 0 <= i <= |transcript|
      invariant selected == transcript[i..] && contextChars == Chars(selected, 4)
      invariant Affordable(contentChars, selected) && |selected| < MAX_MESSAGES
    {
      var message := transcript[i - 1];
      var messageChars := |message.role| + |message.content| + 4;
      ghost var longer := transcript[i - 1..];
      assert longer == [message] + selected;
      CharsAppend([message], selected, 4);
      assert Chars([message], 4) == messageChars + Chars([], 4);
      if selected != [] && contextChars + messageChars + contentChars > MAX_CHARS {
        LongerIsDearer(contentChars, transcript, i);
        break;
      }
      selected := [message] + selected;
      contextChars := contextChars + messageChars;
      i := i - 1;
      if |selected| >= MAX_MESSAGES {
        break;
      }
    }
  }

  /** If one more message is too much, so are two, three and so on. */
  lemma LongerIsDearer(contentChars: nat, transcript: seq<Message>, i: nat)
    requires 1 <= i < |transcript|
    requires Chars(transcript[i - 1..], 4) + contentChars > MAX_CHARS
    ensures forall k :: |transcript| - i < k <= |transcript| ==> !Affordable(contentChars, Last(transcript, k))
  {
    forall k | |transcript| - i < k <= |transcript| ensures !Affordable(contentChars, Last(transcript, k)) {
      var longer := Last(transcript, k);
      assert longer == transcript[|transcript| - k..i - 1] + transcript[i - 1..];
      CharsAppend(transcript[|transcript| - k..i - 1], transcript[i - 1..], 4);
    }
  }

  const PREAMBLE :=
    "Continue this Uprava session. Use the transcript only as prior context, " +
    "then answer the latest user message.\n\nTranscript:\n"

  function Rendered(messages: seq<Message>): string {
    if messages == [] then ""
    else Rendered(messages[..|messages| - 1]) + Line(messages[|messages| - 1])
  }

  function Line(m: Message): string { m.role + ": " + m.content + "\n" }

  /** A message on its own line. */
  ghost predicate IsLine(line: string, m: Message) { line == m.role + ": " + m.content + "\n" }

  /** The text of a prompt: nothing but the content, or every chosen message on its own line before it. */
  ghost predicate Reads(prompt: string, content: string, selected: seq<Message>) {
    if selected == [] then prompt == content
    else
      exists lines ::
        && |lines| == |selected| && (forall k :: 0 <= k < |lines| ==> IsLine(lines[k], selected[k]))
        && prompt == "Continue this Uprava session. Use the transcript only as prior context, " +
                     "then answer the latest user message.\n\nTranscript:\n" + Flatten(lines) +
                     "\nLatest user message:\n" + content
  }

  lemma {:induction false} RenderedIsFlat(messages: seq<Message>) returns (lines: seq<string>)
    ensures |lines| == |messages| && forall k :: 0 <= k < |lines| ==> IsLine(lines[k], messages[k])
    ensures Rendered(messages) == Flatten(lines)
  {
    if messages == [] {
      lines := [];
    } else {
      var before := RenderedIsFlat(messages[..|messages| - 1]);
      var last := Line(messages[|messages| - 1]);
      FlattenSnoc(before, last);
      lines := before + [last];
    }
  }

  ghost predicate IsContext(content: string, transcript: seq<Message>, selected: seq<Message>) {
    IsLongestSuffix((t: seq<Message>) => Affordable(|content|, t), transcript, selected)
  }

  /** `codex_exec_prompt`: the chosen messages in their original order, then the new content. */
  method CodexExecPrompt(content: string, transcript: seq<Message>) returns (prompt: string)
    ensures exists selected ::
              && IsContext(content, transcript, selected) && IsLongestEnd(transcript, selected, 4, |content|, 1)
              && Reads(prompt, content, selected)
    ensures transcript != [] ==> PREAMBLE <= prompt
  {
    var selected := SelectContext(|content|, transcript);
    assert IsContext(content, transcript, selected);
    if transcript != [] {
      assert Affordable(|content|, Last(transcript, 1));
    }
    if selected == [] {
      return content;
    }
    prompt := RenderPrompt(selected);
    prompt := prompt + "\nLatest user message:\n" + content;
    ghost var lines := RenderedIsFlat(selected);
    assert Reads(prompt, content, selected);
  }

  /** The transcript part of a prompt. */
  method RenderPrompt(selected: seq<Message>) returns (prompt: string)
    ensures prompt == PREAMBLE + Rendered(selected)
  {
    prompt := PREAMBLE;
    for i := 0 to |selected|
      invariant prompt == PREAMBLE + Rendered(selected[..i])
    {
      assert selected[..i + 1][..i] == selected[..i];
      var extended := prompt + Line(selected[i]);
      assert extended == PREAMBLE + (Rendered(selected[..i]) + Line(selected[i]));
      prompt := extended;
    }
    assert selected[..|selected|] == selected;
  }
}
