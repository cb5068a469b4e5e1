/** `swap_elements`: overwrite the non-blank lines of a program, in order, with new text. */
module Swap {

  import opened Wrappers
  import opened PyStr

  /** How many of the first `i` lines are not blank: the value of the cursor `j` when the
      loop of `swap_elements` reaches line `i`. */
  function Rank(a: seq<string>, i: nat): (n: nat)
    requires i <= |a|
    ensures n <= i
  {
    if i == 0 then 0 else Rank(a, i - 1) + (if IsBlank(a[i - 1]) then 0 else 1)
  }

  /** The number of non-blank lines. */
  function Count(a: seq<string>): nat {
    Rank(a, |a|)
  }

  /** The non-blank lines, in order. */
  function NonBlank(a: seq<string>): (r: seq<string>)
    ensures |r| == Count(a)
    ensures forall k :: 0 <= k < |r| ==> !IsBlank(r[k])
  {
    if a == [] then []
    else
      var init := a[..|a| - 1];
      assert forall i :: 0 <= i <= |init| ==> Rank(init, i) == Rank(a, i) by {
        forall i | 0 <= i <= |init| ensures Rank(init, i) == Rank(a, i) {
          RankOfPrefix(a, |init|, i);
        }
      }
      NonBlank(init) + (if IsBlank(a[|a| - 1]) then [] else [a[|a| - 1]])
  }

  /** What line `k` becomes: a blank line stays, the non-blank line of rank `n` takes `b[n]`,
      and one whose rank is past the end of `b` is left as it was (the loop stops there). */
  function Replacement(a: seq<string>, b: seq<string>, k: nat): string
    requires k < |a|
  {
    if IsBlank(a[k]) || Rank(a, k) >= |b| then a[k] else b[Rank(a, k)]
  }

  /** The lines after `swap_elements(a, b)`, also when it stops with IndexError. */
  function Swapped(a: seq<string>, b: seq<string>): (r: seq<string>)
    ensures |r| == |a|
    ensures forall k :: 0 <= k < |a| && IsBlank(a[k]) ==> r[k] == a[k]
  {
    seq(|a|, k requires 0 <= k < |a| => Replacement(a, b, k))
  }

  /** `swap_elements(a, b)` as a value: IndexError when `b` has fewer entries than `a` has
      non-blank lines. */
  function SwapSpec(a: seq<string>, b: seq<string>): Result<seq<string>, Error> {
    if Count(a) <= |b| then Ok(Swapped(a, b)) else Err(IndexOut)
  }

  /** The rank of a line only looks at the lines before it. */
  lemma {:induction false} RankOfPrefix(a: seq<string>, n: nat, i: nat)
    requires i <= n <= |a|
    ensures Rank(a[..n], i) == Rank(a, i)
  {
    if i > 0 {
      RankOfPrefix(a, n, i - 1);
      assert a[..n][i - 1] == a[i - 1];
    }
  }

  /** One more line adds that line to the non-blank lines unless it is blank. */
  lemma NonBlankSnoc(a: seq<string>, i: nat)
    requires i < |a|
    ensures NonBlank(a[..i + 1]) == NonBlank(a[..i]) + (if IsBlank(a[i]) then [] else [a[i]])
  {
    var p := a[..i + 1];
    assert p[..|p| - 1] == a[..i];
  }

  /** Ranks grow with the index. */
  lemma {:induction false} RankMonotone(a: seq<string>, i: nat, j: nat)
    requires i <= j <= |a|
    ensures Rank(a, i) <= Rank(a, j)
    decreases j - i
  {
    if i < j {
      RankMonotone(a, i, j - 1);
    }
  }

  /** A non-blank line's rank is less than the number of non-blank lines. */
  lemma RankBelowCount(a: seq<string>, k: nat)
    requires k < |a| && !IsBlank(a[k])
    ensures Rank(a, k) < Count(a)
  {
    RankMonotone(a, k + 1, |a|);
  }

  /** The loop of `swap_elements` over an array, one line at a time. */
  method SwapElements(a: array<string>, b: seq<string>) returns (r: Result<(), Error>)
    modifies a
    ensures a[..] == Swapped(old(a[..]), b)
    ensures r.Ok? <==> Count(old(a[..])) <= |b|
    ensures r.Err? ==> r.error == IndexOut
  {
    ghost var a0 := a[..];
    var j := 0;
    for i := 0 to a.Length
      invariant j == Rank(a0, i) && j <= |b|
      invariant forall k :: 0 <= k < i ==> a[k] == Replacement(a0, b, k)
      invariant forall k :: i <= k < a.Length ==> a[k] == a0[k]
    {
      assert a[i] == a0[i];
      var nonEmpty := HasText(a[i]);
      if nonEmpty {
        if j >= |b| {
          SwapStops(a[..], a0, b, i);
          return Err(IndexOut);
        }
        a[i] := b[j];
        j := j + 1;
      }
      assert a[i] == Replacement(a0, b, i);
      assert j == Rank(a0, i + 1);
    }
    IsSwapped(a[..], a0, b);
    return Ok(());
  }

  lemma SwapStops(s: seq<string>, a: seq<string>, b: seq<string>, i: nat)
    requires |s| == |a| && i < |a| && !IsBlank(a[i]) && Rank(a, i) >= |b|
    requires forall k :: 0 <= k < i ==> s[k] == Replacement(a, b, k)
    requires forall k :: i <= k < |a| ==> s[k] == a[k]
    ensures s == Swapped(a, b) && Count(a) > |b|
  {
    LeftAlone(a, b, i);
    IsSwapped(s, a, b);
    RankMonotone(a, i + 1, |a|);
  }

  lemma IsSwapped(s: seq<string>, a: seq<string>, b: seq<string>)
    requires |s| == |a|
    requires forall k :: 0 <= k < |a| ==> s[k] == Replacement(a, b, k)
    ensures s == Swapped(a, b)
  {
  }

  /** Once the cursor has run past the end of `b`, no later line is replaced. */
  lemma LeftAlone(a: seq<string>, b: seq<string>, i: nat)
    requires i <= |a| && Rank(a, i) >= |b|
    ensures forall k :: i <= k < |a| ==> Replacement(a, b, k) == a[k]
  {
    forall k | i <= k < |a| ensures Replacement(a, b, k) == a[k] {
      RankMonotone(a, i, k);
    }
  }

  /** When `b` has an entry for every non-blank line, a blank line stays and a non-blank line
      takes the entry of its rank. */
  lemma SwappedAt(a: seq<string>, b: seq<string>, k: nat)
    requires Count(a) <= |b| && k < |a|
    ensures |Swapped(a, b)| == |a|
    ensures IsBlank(a[k]) ==> Swapped(a, b)[k] == a[k]
    ensures !IsBlank(a[k]) ==> Rank(a, k) < |b| && Swapped(a, b)[k] == b[Rank(a, k)]
  {
    if !IsBlank(a[k]) {
      RankBelowCount(a, k);
    }
  }

  /** Swapping keeps the number of lines and which of them are blank, and leaves blank lines
      as they were. */
  lemma SwapKeepsBlankLines(a: seq<string>, b: seq<string>, k: nat)
    requires forall n :: 0 <= n < |b| ==> !IsBlank(b[n])
    requires k < |a|
    ensures |Swapped(a, b)| == |a|
    ensures IsBlank(Swapped(a, b)[k]) <==> IsBlank(a[k])
    ensures IsBlank(a[k]) ==> Swapped(a, b)[k] == a[k]
  {
  }

  /** When `b` has one non-blank entry per non-blank line of `a`, the non-blank lines of the
      result are exactly `b`, in order. */
  lemma SwapRefills(a: seq<string>, b: seq<string>)
    requires Count(a) == |b|
    requires forall n :: 0 <= n < |b| ==> !IsBlank(b[n])
    ensures NonBlank(Swapped(a, b)) == b
  {
    var r := Swapped(a, b);
    forall i | 0 <= i <= |a| ensures Rank(a, i) <= |b| && NonBlank(r[..i]) == b[..Rank(a, i)] {
      RefillPrefix(a, b, i);
    }
    assert r[..|a|] == r;
  }

  lemma {:induction false} RefillPrefix(a: seq<string>, b: seq<string>, i: nat)
    requires Count(a) == |b|
    requires forall n :: 0 <= n < |b| ==> !IsBlank(b[n])
    requires i <= |a|
    ensures Rank(a, i) <= |b| && NonBlank(Swapped(a, b)[..i]) == b[..Rank(a, i)]
  {
    RankMonotone(a, i, |a|);
    if i > 0 {
      RefillPrefix(a, b, i - 1);
      var n := Rank(a, i - 1);
      RefillStep(a, b, i, n < |b| && !IsBlank(b[n]));
    }
  }

  /** One step of the refill: line `i - 1` adds `b`'s next entry, or nothing if it is blank. */
  lemma RefillStep(a: seq<string>, b: seq<string>, i: nat, nextFilled: bool)
    requires 0 < i <= |a| && Count(a) == |b| && Rank(a, i - 1) <= |b|
    requires NonBlank(Swapped(a, b)[..i - 1]) == b[..Rank(a, i - 1)]
    requires nextFilled == (Rank(a, i - 1) < |b| && !IsBlank(b[Rank(a, i - 1)]))
    requires !IsBlank(a[i - 1]) ==> nextFilled
    ensures Rank(a, i) <= |b| && NonBlank(Swapped(a, b)[..i]) == b[..Rank(a, i)]
  {
    var r := Swapped(a, b);
    var n := Rank(a, i - 1);
    RankMonotone(a, i, |a|);
    var x := r[i - 1];
    assert x == Replacement(a, b, i - 1);
    assert NonBlank(r[..i]) == NonBlank(r[..i - 1]) + (if IsBlank(x) then [] else [x]) by {
      NonBlankSnoc(r, i - 1);
    }
    if IsBlank(a[i - 1]) {
      assert Rank(a, i) == n && x == a[i - 1];
    } else {
      assert Rank(a, i) == n + 1 && x == b[n] && !IsBlank(x);
      TakeOneMore(b, n);
    }
  }

  lemma TakeOneMore<T>(b: seq<T>, n: nat)
    requires n < |b|
    ensures b[..n + 1] == b[..n] + [b[n]]
  {
  }

  /** The non-blank lines of a program are one per non-blank line, in order. */
  lemma {:induction false} NonBlankAt(a: seq<string>, k: nat)
    requires k < |a| && !IsBlank(a[k])
    ensures Rank(a, k) < |NonBlank(a)| && NonBlank(a)[Rank(a, k)] == a[k]
  {
    RankBelowCount(a, k);
    if k < |a| - 1 {
      var init := a[..|a| - 1];
      assert init[k] == a[k];
      NonBlankAt(init, k);
      RankOfPrefix(a, |init|, k);
    }
  }
}
