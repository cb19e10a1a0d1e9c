/**
 * The text collector of sandbox commands (`append_capped`, `cap_string`): text is measured in UTF-8
 * bytes, cut only between characters, and never grows past its cap.
 */
module CappedText {
  import opened Collections

  /** How many different characters w bytes of UTF-8 can tell apart (RFC 3629, section 3). */
  function Reach(w: nat): nat { if w == 0 then 0 else if w == 1 then 0x80 else if w == 2 then 0x800
                                else if w == 3 then 0x1_0000 else 0x11_0000 }

  /** Bytes of one character in UTF-8: the fewest that reach it. */
  function Width(c: char): (w: nat)
    ensures 1 <= w <= 4 && Reach(w - 1) <= c as int < Reach(w)
  {
    if c as int < 0x80 then 1
    else if c as int < 0x800 then 2
    else if c as int < 0x1_0000 then 3
    else 4
  }

  /** Bytes of a text in UTF-8. */
  function Bytes(s: string): nat {
    if s == "" then 0 else Width(s[0]) + Bytes(s[1..])
  }

  lemma {:induction false} BytesAppend(a: string, b: string)
    ensures Bytes(a + b) == Bytes(a) + Bytes(b)
  {
    if a == "" {
      assert a + b == b;
    } else {
      BytesAppend(a[1..], b);
      assert (a + b)[1..] == a[1..] + b;
    }
  }

  lemma BytesOfPrefix(s: string, j: nat, k: nat)
    requires j <= k <= |s|
    ensures Bytes(s[..j]) <= Bytes(s[..k])
    ensures j < k ==> Bytes(s[..j]) + Width(s[j]) <= Bytes(s[..k])
  {
    assert s[..k] == s[..j] + s[j..k];
    BytesAppend(s[..j], s[j..k]);
    if j < k {
      assert Bytes(s[j..k]) == Width(s[j]) + Bytes(s[j..k][1..]);
    }
  }

  /**
   * k characters of value fit into room bytes, and k + 1 do not (or there is no such prefix).
   */
  ghost predicate IsLongestFit(value: string, room: nat, k: nat) {
    && k <= |value|
    && Bytes(value[..k]) <= room
    && (k < |value| ==> Bytes(value[..k + 1]) > room)
  }

  lemma LongestFitUnique(value: string, room: nat, j: nat, k: nat)
    requires IsLongestFit(value, room, j) && IsLongestFit(value, room, k)
    ensures j == k
  {
    if j < k {
      BytesOfPrefix(value, j + 1, k);
    } else if k < j {
      BytesOfPrefix(value, k + 1, j);
    }
  }

  /** The loop over `char_indices`: the last character start at or before byte `room`. */
  method Boundary(value: string, room: nat) returns (k: nat)
    requires Bytes(value) > room
    ensures IsLongestFit(value, room, k) && k < |value|
  {
    k := 0;
    var index := Width(value[0]);
    assert value[..1] == [value[0]];
    while index <= room
      invariant k < |value|
      invariant index == Bytes(value[..k + 1])
      invariant Bytes(value[..k]) <= room
      decreases |value| - k
    {
      assert value[..|value|] == value;
      assert value[..k + 2] == value[..k + 1] + [value[k + 1]];
      BytesAppend(value[..k + 1], [value[k + 1]]);
      k := k + 1;
      index := index + Width(value[k]);
    }
  }

  /** The collector: the text kept so far and the mark that something may be missing. */
  datatype Collected = Collected(text: string, cut: bool)

  /** How many characters of value fit into room bytes. */
  function Fit(value: string, room: nat): (k: nat)
    ensures IsLongestFit(value, room, k)
  {
    if value == "" || Width(value[0]) > room then
      assert value != "" ==> value[..1] == [value[0]];
      0
    else
      var k := Fit(value[1..], room - Width(value[0]));
      assert value[..k + 1][1..] == value[1..][..k];
      assert k + 1 < |value| ==> value[..k + 2][1..] == value[1..][..k + 1];
      k + 1
  }

  /** One append as a function, for statements about a series of appends. */
  function Append(c: Collected, value: string, max: nat): Collected {
    if Bytes(c.text) >= max then c.(cut := true)
    else
      var k := Fit(value, max - Bytes(c.text));
      Collected(c.text + value[..k], c.cut || k < |value|)
  }

  /** `append_capped`. An already full text is marked even when the new value is empty. */
  method AppendCapped(target: string, value: string, max: nat, truncated: bool)
    returns (text: string, cut: bool)
    requires Bytes(target) <= max
    ensures Collected(text, cut) == Append(Collected(target, truncated), value, max)
    ensures target <= text <= target + value && Bytes(text) <= max
    ensures IsLongestFit(value, max - Bytes(target), |text| - |target|)
    ensures cut <==> truncated || Bytes(target) == max || text != target + value
  {
    if Bytes(target) >= max {
      NoRoom(value);
      return target, true;
    }
    var remaining := max - Bytes(target);
    if Bytes(value) <= remaining {
      BytesAppend(target, value);
      assert value[..|value|] == value;
      LongestFitUnique(value, remaining, |value|, Fit(value, remaining));
      return target + value, truncated;
    }
    var boundary := Boundary(value, remaining);
    LongestFitUnique(value, remaining, boundary, Fit(value, remaining));
    BytesAppend(target, value[..boundary]);
    assert |target + value[..boundary]| < |target + value|;
    return target + value[..boundary], true;
  }

  lemma NoRoom(value: string)
    ensures IsLongestFit(value, 0, 0)
  {
    if value != "" {
      assert value[..1] == [value[0]];
    }
  }

  /** `cap_string`: the longest prefix of whole characters, and whether anything was cut. */
  method CapString(value: string, max: nat) returns (text: string, cut: bool)
    ensures text <= value && IsLongestFit(value, max, |text|)
    ensures cut <==> Bytes(value) > max
    ensures cut <==> text != value
  {
    if Bytes(value) <= max {
      assert value[..|value|] == value;
      return value, false;
    }
    var boundary := Boundary(value, max);
    return value[..boundary], true;
  }

  // ---- A whole series of appends ----

  /** The collector after a series of values, starting empty. */
  function Collect(values: seq<string>, max: nat): Collected {
    if values == [] then Collected("", false)
    else Append(Collect(values[..|values| - 1], max), values[|values| - 1], max)
  }

  lemma CollectNext(values: seq<string>, i: nat, max: nat)
    requires i < |values|
    ensures Collect(values[..i + 1], max) == Append(Collect(values[..i], max), values[i], max)
  {
    assert values[..i + 1][..i] == values[..i];
  }

  /** The text after one more value of a series. */
  lemma TextNext(values: seq<string>, i: nat, max: nat)
    requires i < |values|
    ensures var a, b, v := Collect(values[..i], max).text, Collect(values[..i + 1], max).text, values[i];
            && a <= b && Bytes(b) <= max
            && (v == "" || Width(v[0]) > Room(a, max) ==> b == a)
  {
    CollectBounded(values[..i], max);
    CollectNext(values, i, max);
    AppendEffect(Collect(values[..i], max), values[i], max);
  }

  /** What one append may do to a collector within its cap. */
  lemma AppendEffect(c: Collected, value: string, max: nat)
    requires Bytes(c.text) <= max
    ensures var d := Append(c, value, max);
            && c.text <= d.text <= c.text + value && Bytes(d.text) <= max
            && (!d.cut ==> !c.cut && d.text == c.text + value)
            && (Room(c.text, max) > 0 && value != "" && Width(value[0]) <= Room(c.text, max) ==>
                  |d.text| > |c.text| && d.text[|c.text|] == value[0])
            && (value == "" || Width(value[0]) > Room(c.text, max) ==> d.text == c.text)
            && (d.text != c.text + value ==>
                  Width(value[|d.text| - |c.text|]) > Room(d.text, max))
  {
    var room := Room(c.text, max);
    if Bytes(c.text) < max {
      var k := Fit(value, room);
      BytesAppend(c.text, value[..k]);
      if k < |value| {
        assert value[..k + 1] == value[..k] + [value[k]];
        BytesAppend(value[..k], [value[k]]);
      }
      if k > 0 {
        BytesOfPrefix(value, 0, k);
      } else if value != "" {
        assert value[..1] == [value[0]];
      }
      assert value[..|value|] == value;
    }
  }

  function Room(text: string, max: nat): nat {
    if Bytes(text) >= max then 0 else max - Bytes(text)
  }

  /**
   * For every series of values the text never exceeds the cap, and unless it is marked as cut it is
   * the complete concatenation.
   */
  lemma {:induction false} CollectBounded(values: seq<string>, max: nat)
    ensures Bytes(Collect(values, max).text) <= max
    ensures !Collect(values, max).cut ==> Collect(values, max).text == Flatten(values)
  {
    if values != [] {
      var before, value := values[..|values| - 1], values[|values| - 1];
      CollectBounded(before, max);
      AppendEffect(Collect(before, max), value, max);
      assert values == before + [value];
      FlattenSnoc(before, value);
    }
  }

  /** The mark never goes away again. */
  lemma {:induction false} CutIsSticky(values: seq<string>, i: nat, max: nat)
    requires i <= |values|
    ensures Collect(values[..i], max).cut ==> Collect(values, max).cut
    decreases |values|
  {
    if i == |values| {
      assert values[..i] == values;
    } else {
      var before := values[..|values| - 1];
      CutIsSticky(before, i, max);
      assert before[..i] == values[..i];
    }
  }

  // ---- Is the text a prefix of the stream? ----

  /** The value at index i is the first one that is not taken whole. */
  ghost predicate FirstLoss(values: seq<string>, i: nat, max: nat) {
    && i < |values|
    && Collect(values[..i], max).text == Flatten(values[..i])
    && Collect(values[..i + 1], max).text != Flatten(values[..i + 1])
  }

  /** The value at index j begins with a character narrow enough for the bytes left over after index i. */
  ghost predicate FitsLater(values: seq<string>, i: nat, j: int, max: nat) {
    && i < j < |values|
    && values[j] != ""
    && Width(values[j][0]) <= Room(Collect(values[..i + 1], max).text, max)
  }

  /** At the first loss the text is a proper prefix of the stream and the next character did not fit. */
  lemma AtFirstLoss(values: seq<string>, i: nat, max: nat)
    requires FirstLoss(values, i, max)
    ensures var text := Collect(values[..i + 1], max).text;
            && text < Flatten(values)
            && Width(Flatten(values)[|text|]) > Room(text, max)
  {
    var c, value := Collect(values[..i], max), values[i];
    CollectBounded(values[..i], max);
    CollectNext(values, i, max);
    FlattenPrefix(values, i);
    FlattenSplit(values, i + 1);
    LossOf(c, value, Flatten(values[i + 1..]), max);
  }

  /** A value that is not taken whole is cut before a character that does not fit. */
  lemma LossOf(c: Collected, value: string, rest: string, max: nat)
    requires Bytes(c.text) <= max && Append(c, value, max).text != c.text + value
    ensures var text, stream := Append(c, value, max).text, c.text + value + rest;
            text < stream && Width(stream[|text|]) > Room(text, max)
  {
    AppendEffect(c, value, max);
    CutInside(c.text, value, rest, Append(c, value, max).text);
  }

  lemma CutInside(a: string, value: string, rest: string, b: string)
    requires a <= b <= a + value && b != a + value
    ensures b < a + value + rest && (a + value + rest)[|b|] == value[|b| - |a|]
  {
  }

  /** While nothing fits, the text stays as it was at index i. */
  lemma {:induction false} Frozen(values: seq<string>, i: nat, j: nat, max: nat)
    requires i < j <= |values|
    requires forall k :: i < k < j ==> !FitsLater(values, i, k, max)
    ensures Collect(values[..j], max).text == Collect(values[..i + 1], max).text
  {
    if j > i + 1 {
      Frozen(values, i, j - 1, max);
      TextNext(values, j - 1, max);
      assert !FitsLater(values, i, j - 1, max);
    }
  }

  /** Text is only ever added at the end. */
  lemma {:induction false} TextGrows(values: seq<string>, i: nat, j: nat, max: nat)
    requires i <= j <= |values|
    ensures Collect(values[..i], max).text <= Collect(values[..j], max).text
  {
    if i < j {
      TextGrows(values, i, j - 1, max);
      TextNext(values, j - 1, max);
      PrefixTransitive(
        Collect(values[..i], max).text, Collect(values[..j - 1], max).text, Collect(values[..j], max).text);
    }
  }

  /** Exactly one earlier index is the first loss, if anything was lost at all. */
  lemma {:induction false} FindFirstLoss(values: seq<string>, max: nat) returns (i: nat)
    requires Collect(values, max).text != Flatten(values)
    ensures FirstLoss(values, i, max)
  {
    var n := |values| - 1;
    assert values[..n + 1] == values;
    if Collect(values[..n], max).text == Flatten(values[..n]) {
      i := n;
    } else {
      i := FindFirstLoss(values[..n], max);
      assert values[..n][..i] == values[..i] && values[..n][..i + 1] == values[..i + 1];
    }
  }

  /** After the first value that was not taken whole, some later value begins with a character that still fits. */
  ghost predicate LaterFits(values: seq<string>, max: nat) {
    exists i: nat, j: nat :: FirstLoss(values, i, max) && FitsLater(values, i, j, max)
  }

  /**
   * A later short value may be appended after an earlier one was cut, so the text is not always a
   * prefix of the stream. Over every series of values it is one exactly when nothing was lost or no
   * later value starts with a character that fits into the bytes left over at the first loss.
   */
  lemma PrefixExactly(values: seq<string>, max: nat)
    ensures Collect(values, max).text <= Flatten(values) <==> !LaterFits(values, max)
  {
    if i: nat, j: nat :| FirstLoss(values, i, max) && FitsLater(values, i, j, max) {
      PrefixAtLoss(values, i, max);
    } else if Collect(values, max).text != Flatten(values) {
      var i := FindFirstLoss(values, max);
      assert forall j: int :: FitsLater(values, i, j, max) ==> j >= 0;
      PrefixAtLoss(values, i, max);
    }
  }

  lemma PrefixAtLoss(values: seq<string>, i: nat, max: nat)
    requires FirstLoss(values, i, max)
    ensures Collect(values, max).text <= Flatten(values) <==> forall j :: !FitsLater(values, i, j, max)
  {
    AtFirstLoss(values, i, max);
    assert values[..|values|] == values;
    if forall j :: !FitsLater(values, i, j, max) {
      Frozen(values, i, |values|, max);
    } else {
      Overtaken(values, i, max);
    }
  }

  /** The first later value that fits adds a character narrower than the one that was lost. */
  lemma Overtaken(values: seq<string>, i: nat, max: nat)
    requires i < |values| && exists j :: FitsLater(values, i, j, max)
    ensures var text := Collect(values[..i + 1], max).text;
            && text < Collect(values, max).text
            && Width(Collect(values, max).text[|text|]) <= Room(text, max)
  {
    var j := FirstFitting(values, i, max);
    Frozen(values, i, j, max);
    OvertakenAt(values, j, max, Collect(values[..i + 1], max).text);
  }

  lemma OvertakenAt(values: seq<string>, j: nat, max: nat, text: string)
    requires j < |values| && text == Collect(values[..j], max).text
    requires values[j] != "" && Width(values[j][0]) <= Room(text, max)
    ensures var whole := Collect(values, max).text;
            text < whole && Width(whole[|text|]) <= Room(text, max)
  {
    FittingAppended(values, j, max);
    TextGrows(values, j + 1, |values|, max);
    assert values[..|values|] == values;
    PrefixKeepsNext(text, Collect(values[..j + 1], max).text, Collect(values, max).text);
  }

  lemma PrefixKeepsNext(a: string, b: string, c: string)
    requires a < b <= c
    ensures a < c && c[|a|] == b[|a|]
  {
  }

  /** A value whose first character fits adds that character. */
  lemma FittingAppended(values: seq<string>, j: nat, max: nat)
    requires j < |values| && values[j] != "" && Width(values[j][0]) <= Room(Collect(values[..j], max).text, max)
    ensures var text, next := Collect(values[..j], max).text, Collect(values[..j + 1], max).text;
            text < next && next[|text|] == values[j][0]
  {
    CollectBounded(values[..j], max);
    CollectNext(values, j, max);
    AppendEffect(Collect(values[..j], max), values[j], max);
  }

  lemma FirstFitting(values: seq<string>, i: nat, max: nat) returns (j: nat)
    requires exists j :: FitsLater(values, i, j, max)
    ensures FitsLater(values, i, j, max)
    ensures forall k :: i < k < j ==> !FitsLater(values, i, k, max)
  {
    var last: nat :| FitsLater(values, i, last, max);
    j := i + 1;
    while !FitsLater(values, i, j, max)
      invariant i < j <= last
      invariant forall k :: i < k < j ==> !FitsLater(values, i, k, max)
      decreases last - j
    {
      j := j + 1;
    }
  }

  /** A cap of one byte: the two-byte character is lost, the letter after it still goes in. */
  lemma NotAlwaysAPrefix()
    ensures Collect(["\U{00E9}", "c"], 1) == Collected("c", true)
    ensures !("c" <= Flatten(["\U{00E9}", "c"]))
  {
    var values := ["\U{00E9}", "c"];
    CollectNext(values, 0, 1);
    CollectNext(values, 1, 1);
    assert values[..2] == values && values[..0] == [];
    assert Fit("\U{00E9}", 1) == 0 && Fit("c", 1) == 1;
    assert Collect(values[..1], 1) == Collected("", true);
    FlattenSplit(values, 1);
    assert Flatten(values)[0] == '\U{00E9}';
  }
}
