/** Shared vocabulary: options, concatenation of chunks, and "the longest suffix that fits". */
module Collections {

  datatype Option<+T> = None | Some(value: T)

  type Byte = b: int | 0 <= b < 256

  /** The concatenation of a list of pieces, in order. */
  function Flatten<T>(parts: seq<seq<T>>): seq<T> {
    if parts == [] then [] else parts[0] + Flatten(parts[1..])
  }

  lemma {:induction false} FlattenAppend<T>(a: seq<seq<T>>, b: seq<seq<T>>)
    ensures Flatten(a + b) == Flatten(a) + Flatten(b)
  {
    if a == [] {
      assert a + b == b;
    } else {
      calc {
        Flatten(a + b);
        { assert (a + b)[0] == a[0] && (a + b)[1..] == a[1..] + b; }
        a[0] + Flatten(a[1..] + b);
        { FlattenAppend(a[1..], b); }
        a[0] + (Flatten(a[1..]) + Flatten(b));
        (a[0] + Flatten(a[1..])) + Flatten(b);
      }
    }
  }

  lemma FlattenSnoc<T>(a: seq<seq<T>>, x: seq<T>)
    ensures Flatten(a + [x]) == Flatten(a) + x
  {
    FlattenAppend(a, [x]);
    assert Flatten([x]) == x + Flatten<T>([]) == x;
  }

  /** The loop step "the chunks read so far grow by one". */
  lemma FlattenPrefix<T>(parts: seq<seq<T>>, i: nat)
    requires i < |parts|
    ensures Flatten(parts[..i + 1]) == Flatten(parts[..i]) + parts[i]
  {
    assert parts[..i + 1] == parts[..i] + [parts[i]];
    FlattenSnoc(parts[..i], parts[i]);
  }

  lemma FlattenSplit<T>(parts: seq<seq<T>>, i: nat)
    requires i <= |parts|
    ensures Flatten(parts) == Flatten(parts[..i]) + Flatten(parts[i..])
  {
    assert parts == parts[..i] + parts[i..];
    FlattenAppend(parts[..i], parts[i..]);
  }

  lemma PrefixTransitive<T>(a: seq<T>, b: seq<T>, c: seq<T>)
    requires a <= b <= c
    ensures a <= c
  {
  }

  /** The first n elements, or everything when there are fewer. */
  function First<T>(s: seq<T>, n: nat): (r: seq<T>)
    ensures r <= s
    ensures |r| == if |s| <= n then |s| else n
  {
    if |s| <= n then s else s[..n]
  }

  /** The last n elements. */
  function Last<T>(s: seq<T>, n: nat): seq<T>
    requires n <= |s|
  {
    s[|s| - n..]
  }

  /** t is a suffix of whole that fits, and no longer suffix of whole fits. */
  ghost predicate IsLongestSuffix<T>(fits: seq<T> -> bool, whole: seq<T>, t: seq<T>) {
    && |t| <= |whole|
    && t == Last(whole, |t|)
    && fits(t)
    && forall k :: |t| < k <= |whole| ==> !fits(Last(whole, k))
  }

  /** Whatever fits still fits after elements are taken off either end. */
  ghost predicate Hereditary<T(!new)>(fits: seq<T> -> bool) {
    forall a: seq<T>, b: seq<T> :: fits(a + b) ==> fits(a) && fits(b)
  }

  /** The longest fitting suffix is unique. */
  lemma LongestSuffixUnique<T>(fits: seq<T> -> bool, whole: seq<T>, t: seq<T>, u: seq<T>)
    requires IsLongestSuffix(fits, whole, t)
    requires IsLongestSuffix(fits, whole, u)
    ensures t == u
  {
  }

  /**
   * Why a bounded buffer may forget: trimming "what was kept plus what is new" gives the same
   * result as trimming the complete history.
   */
  lemma LongestSuffixExtends<T(!new)>(fits: seq<T> -> bool, history: seq<T>, kept: seq<T>, added: seq<T>, t: seq<T>)
    requires Hereditary(fits)
    requires IsLongestSuffix(fits, history, kept)
    requires IsLongestSuffix(fits, kept + added, t)
    ensures IsLongestSuffix(fits, history + added, t)
  {
    var all := history + added;
    forall k | k <= |kept + added| ensures k >= 0 ==> Last(all, k) == Last(kept + added, k) {
    }
    forall k | |t| < k <= |all| ensures !fits(Last(all, k)) {
      if k > |kept + added| {
        var m := k - |added|;
        assert Last(all, k) == Last(history, m) + added;
        assert !fits(Last(history, m));
      } else {
        assert !fits(Last(kept + added, k));
      }
    }
  }

  /** a is b with some elements left out. */
  ghost predicate IsSubsequence<T>(a: seq<T>, b: seq<T>)
    decreases |b|
  {
    || a == []
    || (b != [] && IsSubsequence(a, b[..|b| - 1]))
    || (b != [] && a[|a| - 1] == b[|b| - 1] && IsSubsequence(a[..|a| - 1], b[..|b| - 1]))
  }

  lemma SubsequenceSnoc<T>(a: seq<T>, b: seq<T>, x: T)
    requires IsSubsequence(a, b)
    ensures IsSubsequence(a, b + [x]) && IsSubsequence(a + [x], b + [x])
  {
    assert (b + [x])[..|b|] == b && (a + [x])[..|a|] == a;
  }

  /** One more element may be left out. */
  lemma {:induction false} DropOne<T>(a: seq<T>, x: T, c: seq<T>, b: seq<T>)
    requires IsSubsequence(a + [x] + c, b)
    ensures IsSubsequence(a + c, b)
    decreases |b|
  {
    var whole := a + [x] + c;
    var init := b[..|b| - 1];
    if IsSubsequence(whole, init) {
      DropOne(a, x, c, init);
    } else if c == [] {
      assert whole[..|whole| - 1] == a && a + c == a;
    } else {
      var c' := c[..|c| - 1];
      assert whole[..|whole| - 1] == a + [x] + c';
      DropOne(a, x, c', init);
      assert (a + c)[..|a + c| - 1] == a + c';
    }
  }
}
