/**
 * `RandomBody`: a file-like body of a fixed number of octets, served in
 * blocks of at most `blocksiz` octets of a block source, with a budget
 * that each read consumes.
 */
module RandomBody {

  import opened Common

  /** `min(total, min(want, blocksiz))`, where a missing or zero `want` means `total`. */
  function Amount(total: int, want: Option<int>, blocksiz: int): (amt: int)
    ensures amt <= total && amt <= blocksiz
    ensures want.Some? && want.value != 0 ==> amt <= want.value
    ensures amt == total || amt == blocksiz || (want.Some? && want.value != 0 && amt == want.value)
  {
    var w := if want.None? || want.value == 0 then total else want.value;
    Min(total, Min(w, blocksiz))
  }

  /** Python's `s[:n]`: a negative `n` counts from the end. */
  function SliceTo(s: Bytes, n: int): (r: Bytes)
    ensures |r| <= |s|
    ensures n >= 0 ==> |r| == Min(n, |s|)
    ensures n < 0 ==> |r| == (if |s| + n > 0 then |s| + n else 0)
    ensures r == s[..|r|]
  {
    if n >= 0 then s[..Min(n, |s|)]
    else if |s| + n > 0 then s[..|s| + n]
    else []
  }

  function Sum(xs: seq<int>): int
  {
    if xs == [] then 0 else Sum(xs[..|xs| - 1]) + xs[|xs| - 1]
  }

  /** The amounts a sequence of reads consumes, one per read. */
  function Amounts(total: int, blocksiz: int, wants: seq<Option<int>>): (r: seq<int>)
    ensures |r| == |wants|
    decreases |wants|
  {
    if wants == [] then []
    else
      var a := Amount(total, wants[0], blocksiz);
      [a] + Amounts(total - a, blocksiz, wants[1..])
  }

  /** The budget left after a sequence of reads. */
  function Remaining(total: int, blocksiz: int, wants: seq<Option<int>>): int
    decreases |wants|
  {
    if wants == [] then total
    else Remaining(total - Amount(total, wants[0], blocksiz), blocksiz, wants[1..])
  }

  lemma {:induction false} SumFront(a: int, xs: seq<int>)
    ensures Sum([a] + xs) == a + Sum(xs)
  {
    if xs != [] {
      assert ([a] + xs)[..|[a] + xs| - 1] == [a] + xs[..|xs| - 1];
      SumFront(a, xs[..|xs| - 1]);
    }
  }

  /** Whatever the reads, what they consume and what is left add up to the budget. */
  lemma {:induction false} AmountsAddUp(total: int, blocksiz: int, wants: seq<Option<int>>)
    decreases |wants|
    ensures Sum(Amounts(total, blocksiz, wants)) + Remaining(total, blocksiz, wants) == total
  {
    if wants != [] {
      var a := Amount(total, wants[0], blocksiz);
      AmountsAddUp(total - a, blocksiz, wants[1..]);
      SumFront(a, Amounts(total - a, blocksiz, wants[1..]));
    }
  }

  /** A non-negative budget never goes negative, whatever is asked for. */
  lemma {:induction false} RemainingNonNegative(total: int, blocksiz: int, wants: seq<Option<int>>)
    decreases |wants|
    requires total >= 0
    ensures Remaining(total, blocksiz, wants) >= 0
  {
    if wants != [] {
      RemainingNonNegative(total - Amount(total, wants[0], blocksiz), blocksiz, wants[1..]);
    }
  }

  /**
   * Reading until a read returns nothing consumes exactly the budget: with
   * positive block size and requests, an empty read means nothing is left.
   */
  lemma ReadUntilEmpty(total: int, blocksiz: int, wants: seq<Option<int>>)
    requires total >= 0 && blocksiz > 0 && wants != []
    requires forall i :: 0 <= i < |wants| ==> wants[i].None? || wants[i].value >= 0
    requires Amounts(total, blocksiz, wants)[|wants| - 1] == 0
    ensures Sum(Amounts(total, blocksiz, wants)) == total
  {
    AmountsAddUp(total, blocksiz, wants);
    LastAmountZero(total, blocksiz, wants);
  }

  lemma {:induction false} LastAmountZero(total: int, blocksiz: int, wants: seq<Option<int>>)
    decreases |wants|
    requires total >= 0 && blocksiz > 0 && wants != []
    requires forall i :: 0 <= i < |wants| ==> wants[i].None? || wants[i].value >= 0
    requires Amounts(total, blocksiz, wants)[|wants| - 1] == 0
    ensures Remaining(total, blocksiz, wants) == 0
  {
    var a := Amount(total, wants[0], blocksiz);
    if |wants| > 1 {
      assert Amounts(total - a, blocksiz, wants[1..])[|wants[1..]| - 1] == 0;
      LastAmountZero(total - a, blocksiz, wants[1..]);
    }
  }

  class RandomBody {
    /** `_total`: the octets still to be served. */
    var total: int
    /** The block source's `blocksiz`. */
    const blocksiz: int
    /** The budget it was created with, and the amounts consumed since. */
    ghost const initial: int
    ghost var consumed: seq<int>

    ghost predicate Valid()
      reads this
    {
      Sum(consumed) + total == initial && (initial >= 0 ==> total >= 0)
    }

    /** `RandomBody(random_blocks, total)`. */
    constructor (blocksiz: int, total: int)
      ensures Valid() && this.total == total && this.blocksiz == blocksiz && initial == total && consumed == []
    {
      this.total := total;
      this.blocksiz := blocksiz;
      initial := total;
      consumed := [];
    }

    /**
     * `read(want)`: `Amount` octets leave the budget and the block, cut
     * to that amount, is returned; nothing changes when the amount is 0.
     * `block` is what `get_block()` returns.
     */
    method Read(want: Option<int>, block: Bytes) returns (octets: Bytes)
      requires Valid()
      modifies this
      ensures Valid()
      ensures var amt := Amount(old(total), want, blocksiz);
        total == old(total) - amt && consumed == old(consumed) + [amt]
        && octets == (if amt != 0 then SliceTo(block, amt) else [])
      ensures Amount(old(total), want, blocksiz) == 0 ==> octets == [] && total == old(total)
      ensures Amount(old(total), want, blocksiz) > 0 ==> |octets| == Min(Amount(old(total), want, blocksiz), |block|)
    {
      var w := if want.None? || want.value == 0 then total else want.value;
      var amt := Min(total, Min(w, blocksiz));
      consumed := consumed + [amt];
      assert Sum(consumed) == Sum(old(consumed)) + amt;
      if amt != 0 {
        total := total - amt;
        octets := SliceTo(block, amt);
      } else {
        octets := [];
      }
    }

    /** `seek(offset, whence)`: a stub that changes nothing. */
    method Seek(offset: int, whence: int)
      ensures total == old(total)
    {
    }

    /** `tell()`: the octets still to be served. */
    function Tell(): (n: int)
      reads this
      ensures n == total
    {
      total
    }
  }
}
