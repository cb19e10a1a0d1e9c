/**
 * The hunk parser of workspace diffs (`parse_workspace_diff_hunks`): one pass with a pending hunk and
 * a cap of 256, compared with an uncapped grouping of the lines.
 */
module DiffHunks {
  import opened Collections

  const MAX_HUNKS: nat := 256

  datatype Hunk = Hunk(number: nat, header: string, patch: string)

  predicate StartsHunk(line: string) { "@@ " <= line }

  predicate StartsFile(line: string) { "diff --git " <= line }

  predicate InsideHunk(line: string) { !StartsHunk(line) && !StartsFile(line) }

  /** Lines of a patch, each with its newline. */
  function Text(lines: seq<string>): string {
    if lines == [] then "" else Text(lines[..|lines| - 1]) + lines[|lines| - 1] + "\n"
  }

  // ---- The uncapped meaning: group the lines ----

  /** How many lines from i on belong to the hunk that is open before i. */
  function BodyEnd(lines: seq<string>, i: nat): (e: nat)
    requires i <= |lines|
    ensures i <= e <= |lines|
    ensures forall k :: i <= k < e ==> InsideHunk(lines[k])
    ensures e < |lines| ==> !InsideHunk(lines[e])
    decreases |lines| - i
  {
    if i == |lines| || !InsideHunk(lines[i]) then i else BodyEnd(lines, i + 1)
  }

  /** The hunks from line i on, each as the list of its lines; line i is outside any hunk. */
  function Groups(lines: seq<string>, i: nat): seq<seq<string>>
    requires i <= |lines|
    decreases |lines| - i
  {
    if i == |lines| then []
    else if StartsHunk(lines[i]) then
      var e := BodyEnd(lines, i + 1);
      [lines[i..e]] + Groups(lines, e)
    else Groups(lines, i + 1)
  }

  /** The hunks when a hunk with the lines `open` is pending before line i. */
  function GroupsWithOpen(lines: seq<string>, i: nat, open: seq<string>): seq<seq<string>>
    requires i <= |lines|
  {
    if open == [] then Groups(lines, i)
    else
      var e := BodyEnd(lines, i);
      [open + lines[i..e]] + Groups(lines, e)
  }

  function Numbered(groups: seq<seq<string>>): seq<Hunk>
    requires forall k :: 0 <= k < |groups| ==> groups[k] != []
  {
    seq(|groups|, k requires 0 <= k < |groups| => Hunk(k + 1, groups[k][0], Text(groups[k])))
  }

  /** Every group starts with its own header and has no other hunk or file header. */
  ghost predicate WellFormed(groups: seq<seq<string>>) {
    forall k :: 0 <= k < |groups| ==>
                  && groups[k] != []
                  && StartsHunk(groups[k][0])
                  && forall j :: 1 <= j < |groups[k]| ==> InsideHunk(groups[k][j])
  }

  lemma {:induction false} GroupsWellFormed(lines: seq<string>, i: nat)
    requires i <= |lines|
    ensures WellFormed(Groups(lines, i))
    decreases |lines| - i
  {
    if i < |lines| {
      GroupsWellFormed(lines, if StartsHunk(lines[i]) then BodyEnd(lines, i + 1) else i + 1);
    }
  }

  // ---- No line is lost: the groups are the in-hunk lines in order ----

  /** The lines that belong to hunks, decided line by line. */
  function InHunkLines(lines: seq<string>, i: nat, inside: bool): seq<string>
    requires i <= |lines|
    decreases |lines| - i
  {
    if i == |lines| then []
    else if StartsHunk(lines[i]) then [lines[i]] + InHunkLines(lines, i + 1, true)
    else if StartsFile(lines[i]) || !inside then InHunkLines(lines, i + 1, false)
    else [lines[i]] + InHunkLines(lines, i + 1, true)
  }

  lemma {:induction false} BodyIsInHunk(lines: seq<string>, i: nat)
    requires i <= |lines|
    ensures InHunkLines(lines, i, true) ==
            lines[i..BodyEnd(lines, i)] + InHunkLines(lines, BodyEnd(lines, i), false)
    decreases |lines| - i
  {
    var e := BodyEnd(lines, i);
    if e == i {
      assert lines[i..e] == [];
    } else {
      BodyIsInHunk(lines, i + 1);
      assert lines[i..e] == [lines[i]] + lines[i + 1..e];
    }
  }

  /** Together the groups are exactly the in-hunk lines, in order. */
  lemma {:induction false} GroupsAreInHunkLines(lines: seq<string>, i: nat)
    requires i <= |lines|
    ensures Flatten(Groups(lines, i)) == InHunkLines(lines, i, false)
    decreases |lines| - i
  {
    if i < |lines| {
      if StartsHunk(lines[i]) {
        var e := BodyEnd(lines, i + 1);
        GroupsAreInHunkLines(lines, e);
        BodyIsInHunk(lines, i + 1);
        assert lines[i..e] == [lines[i]] + lines[i + 1..e];
        assert ([lines[i..e]] + Groups(lines, e))[1..] == Groups(lines, e);
      } else {
        GroupsAreInHunkLines(lines, i + 1);
      }
    }
  }

  // ---- The parser ----

  /** What the groups become when one more line is read while a hunk is open. */
  lemma OpenStep(lines: seq<string>, i: nat, open: seq<string>)
    requires i < |lines| && open != []
    ensures StartsHunk(lines[i]) ==>
              GroupsWithOpen(lines, i, open) == [open] + GroupsWithOpen(lines, i + 1, [lines[i]])
    ensures StartsFile(lines[i]) ==> GroupsWithOpen(lines, i, open) == [open] + GroupsWithOpen(lines, i + 1, [])
    ensures InsideHunk(lines[i]) ==> GroupsWithOpen(lines, i, open) == GroupsWithOpen(lines, i + 1, open + [lines[i]])
  {
    var e := BodyEnd(lines, i);
    if InsideHunk(lines[i]) {
      assert lines[i..e] == [lines[i]] + lines[i + 1..e];
      assert open + lines[i..e] == (open + [lines[i]]) + lines[i + 1..e];
    } else {
      assert open + lines[i..i] == open;
      if StartsHunk(lines[i]) {
        assert !StartsFile(lines[i]) by { assert lines[i][0] == '@'; }
        var f := BodyEnd(lines, i + 1);
        assert lines[i..f] == [lines[i]] + lines[i + 1..f];
      }
    }
  }

  lemma ClosedStep(lines: seq<string>, i: nat)
    requires i < |lines|
    ensures StartsHunk(lines[i]) ==> Groups(lines, i) == GroupsWithOpen(lines, i + 1, [lines[i]])
    ensures !StartsHunk(lines[i]) ==> Groups(lines, i) == Groups(lines, i + 1)
  {
    if StartsHunk(lines[i]) {
      var f := BodyEnd(lines, i + 1);
      assert lines[i..f] == [lines[i]] + lines[i + 1..f];
    }
  }

  /** The pending hunk: a header and the text collected for it. */
  ghost predicate Pending(header: Option<string>, patch: string, open: seq<string>) {
    && patch == Text(open)
    && (header.None? <==> open == [])
    && (header.Some? ==> header.value == open[0])
  }

  /** The hunks are the first groups, and the rest is still to come. */
  ghost predicate Emitted(all: seq<seq<string>>, hunks: seq<Hunk>, rest: seq<seq<string>>) {
    && WellFormed(all) && |hunks| <= |all|
    && hunks == Numbered(all[..|hunks|]) && all == all[..|hunks|] + rest
  }

  /** The variables of the loop before line i. */
  datatype Parser = Parser(hunks: seq<Hunk>, header: Option<string>, patch: string)

  ghost predicate Parsing(
    all: seq<seq<string>>, lines: seq<string>, i: nat, p: Parser, open: seq<string>)
    requires i <= |lines|
  {
    && |p.hunks| <= MAX_HUNKS && Pending(p.header, p.patch, open)
    && Emitted(all, p.hunks, GroupsWithOpen(lines, i, open))
  }

  /** `parse_workspace_diff_hunks`: the first 256 hunks of the grouping, numbered from 1. */
  method ParseWorkspaceDiffHunks(lines: seq<string>) returns (hunks: seq<Hunk>)
    ensures WellFormed(Groups(lines, 0))
    ensures hunks == Numbered(First(Groups(lines, 0), MAX_HUNKS))
    ensures |hunks| == (if |Groups(lines, 0)| <= 256 then |Groups(lines, 0)| else 256)
    ensures forall k :: 0 <= k < |hunks| ==> IsHunk(hunks[k], k + 1, Groups(lines, 0)[k])
  {
    hunks := CollectHunks(lines);
    GroupsWellFormed(lines, 0);
    forall k | 0 <= k < |hunks| ensures IsHunk(hunks[k], k + 1, Groups(lines, 0)[k]) {
      TextIsFlat(Groups(lines, 0)[k]);
    }
  }

  /** The hunk of a group: its number, its first line as header, and all its lines as patch. */
  ghost predicate IsHunk(hunk: Hunk, number: nat, group: seq<string>) {
    && hunk.number == number && group != [] && hunk.header == group[0]
    && hunk.patch == Flatten(seq(|group|, i requires 0 <= i < |group| => group[i] + "\n"))
    && "@@ " <= group[0]
    && forall j :: 1 <= j < |group| ==> !("@@ " <= group[j]) && !("diff --git " <= group[j])
  }

  /** The text of a patch is its lines, each with its newline. */
  lemma {:induction false} TextIsFlat(lines: seq<string>)
    ensures Text(lines) == Flatten(seq(|lines|, i requires 0 <= i < |lines| => lines[i] + "\n"))
  {
    if lines != [] {
      var init, last := lines[..|lines| - 1], lines[|lines| - 1];
      var flat := seq(|init|, i requires 0 <= i < |init| => init[i] + "\n");
      TextIsFlat(init);
      FlattenSnoc(flat, last + "\n");
      assert seq(|lines|, i requires 0 <= i < |lines| => lines[i] + "\n") == flat + [last + "\n"];
    }
  }

  method CollectHunks(lines: seq<string>) returns (hunks: seq<Hunk>)
    ensures WellFormed(Groups(lines, 0))
    ensures hunks == Numbered(First(Groups(lines, 0), MAX_HUNKS))
  {
    GroupsWellFormed(lines, 0);
    ghost var all := Groups(lines, 0);
    var p := Parser([], None, "");
    ghost var open: seq<string> := [];
    var i := 0;
    while i < |lines|
      invariant 0 <= i <= |lines|
      invariant Parsing(all, lines, i, p, open)
    {
      if |p.hunks| >= MAX_HUNKS {
        break;
      }
      p, open := ReadLine(all, lines, i, p, open);
      i := i + 1;
    }
    hunks := CloseLast(all, lines, i, p, open);
  }

  /** One line of the loop. */
  method ReadLine(ghost all: seq<seq<string>>, lines: seq<string>, i: nat, p: Parser, ghost open: seq<string>)
    returns (q: Parser, ghost next: seq<string>)
    requires i < |lines| && |p.hunks| < MAX_HUNKS && Parsing(all, lines, i, p, open)
    ensures Parsing(all, lines, i + 1, q, next)
  {
    var line := lines[i];
    q, next := p, open;
    if p.header.None? {
      ClosedStep(lines, i);
    } else {
      OpenStep(lines, i, open);
    }
    if StartsHunk(line) {
      if p.header.Some? {
        var hunks := PushHunk(p.hunks, p.header.value, p.patch, all, open, GroupsWithOpen(lines, i + 1, [line]));
        q := p.(hunks := hunks, patch := "");
      }
      TextSnoc([], line);
      q, next := q.(header := Some(line), patch := q.patch + line + "\n"), [line];
    } else if p.header.Some? {
      if StartsFile(line) {
        var hunks := PushHunk(p.hunks, p.header.value, p.patch, all, open, GroupsWithOpen(lines, i + 1, []));
        q, next := Parser(hunks, None, ""), [];
      } else {
        TextSnoc(open, line);
        q, next := p.(patch := p.patch + line + "\n"), open + [line];
      }
    }
  }

  /** After the loop the pending hunk is closed, unless there are enough. */
  method CloseLast(ghost all: seq<seq<string>>, lines: seq<string>, i: nat, p: Parser, ghost open: seq<string>)
    returns (hunks: seq<Hunk>)
    requires i <= |lines| && Parsing(all, lines, i, p, open) && (i < |lines| ==> |p.hunks| >= MAX_HUNKS)
    ensures WellFormed(all) && hunks == Numbered(First(all, MAX_HUNKS))
  {
    hunks := p.hunks;
    if |hunks| < MAX_HUNKS {
      if p.header.Some? {
        assert open + lines[i..i] == open;
        hunks := PushHunk(hunks, p.header.value, p.patch, all, open, []);
      }
      assert all[..|hunks|] == all;
    }
  }

  lemma TextSnoc(open: seq<string>, line: string)
    ensures Text(open + [line]) == Text(open) + line + "\n"
    ensures open == [] ==> open + [line] == [line]
  {
    assert (open + [line])[..|open|] == open;
  }

  /** Closing the pending hunk. */
  method PushHunk(
    hunks: seq<Hunk>, header: string, patch: string,
    ghost all: seq<seq<string>>, ghost open: seq<string>, ghost rest: seq<seq<string>>) returns (r: seq<Hunk>)
    requires Emitted(all, hunks, [open] + rest)
    requires open != [] && header == open[0] && patch == Text(open)
    ensures |r| == |hunks| + 1 && Emitted(all, r, rest)
  {
    assert all[..|hunks|] + ([open] + rest) == (all[..|hunks|] + [open]) + rest;
    assert all[|hunks|] == open;
    assert all[..|hunks| + 1] == all[..|hunks|] + [open];
    r := hunks + [Hunk(|hunks| + 1, header, patch)];
  }

  /** Below the cap nothing is missing: the patches are the in-hunk lines of the diff, in order. */
  lemma BelowCapNothingIsLost(lines: seq<string>)
    requires |Groups(lines, 0)| <= MAX_HUNKS
    ensures WellFormed(Groups(lines, 0))
    ensures Patches(Numbered(First(Groups(lines, 0), MAX_HUNKS))) == Text(InHunkLines(lines, 0, false))
  {
    GroupsWellFormed(lines, 0);
    GroupsAreInHunkLines(lines, 0);
    PatchesAreText(Groups(lines, 0));
  }

  function Patches(hunks: seq<Hunk>): string {
    if hunks == [] then "" else Patches(hunks[..|hunks| - 1]) + hunks[|hunks| - 1].patch
  }

  lemma {:induction false} PatchesAreText(groups: seq<seq<string>>)
    requires WellFormed(groups)
    ensures Patches(Numbered(groups)) == Text(Flatten(groups))
  {
    if groups != [] {
      var before, group := groups[..|groups| - 1], groups[|groups| - 1];
      PatchesAreText(before);
      assert Numbered(groups)[..|groups| - 1] == Numbered(before);
      assert groups == before + [group];
      FlattenSnoc(before, group);
      TextAppend(Flatten(before), group);
    }
  }

  lemma {:induction false} TextAppend(a: seq<string>, b: seq<string>)
    ensures Text(a + b) == Text(a) + Text(b)
  {
    if b == [] {
      assert a + b == a;
    } else {
      var b' := b[..|b| - 1];
      TextAppend(a, b');
      assert (a + b)[..|a + b| - 1] == a + b';
      assert (Text(a) + Text(b')) + b[|b| - 1] + "\n" == Text(a) + (Text(b') + b[|b| - 1] + "\n");
    }
  }
}
