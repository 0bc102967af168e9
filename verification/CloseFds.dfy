/**
 Closing every descriptor above a threshold except a kept few, by closing the gaps between
 the kept ones. Descriptors are 32-bit; `next` wraps as the signed addition does and is then
 read as unsigned.
 */
module CloseFds {
  import opened Prelude

  const I32_MAX := 0x7FFF_FFFF
  const U32_MAX := 0xFFFF_FFFF

  type i32 = x: int | -0x8000_0000 <= x <= 0x7FFF_FFFF

  /** `x + 1` in 32-bit signed arithmetic. */
  function Succ(x: i32): i32 { if x == I32_MAX then -0x8000_0000 else x + 1 }

  function AsUnsigned(x: i32): u32 { if x < 0 then x + 0x1_0000_0000 else x }

  /** A call of `close_range`: both ends included. */
  datatype Span = Span(first: u32, last: u32)

  ghost predicate Closed(spans: seq<Span>, fd: u32) {
    exists i :: 0 <= i < |spans| && spans[i].first <= fd <= spans[i].last
  }

  ghost predicate Ascending(s: seq<i32>) { forall i, j :: 0 <= i < j < |s| ==> s[i] < s[j] }

  /** Insertion into an ascending list without duplicates: `sort_unstable` and `dedup` together. */
  function Insert(x: i32, s: seq<i32>): seq<i32> {
    if s == [] || x < s[0] then [x] + s
    else if x == s[0] then s
    else [s[0]] + Insert(x, s[1..])
  }

  lemma AscendingCons(x: i32, s: seq<i32>)
    requires Ascending(s) && forall y :: y in s ==> x < y
    ensures Ascending([x] + s)
  {
    var t := [x] + s;
    forall i, j | 0 <= i < j < |t| ensures t[i] < t[j] {
      assert t[j] == s[j - 1] && s[j - 1] in s;
      if i > 0 {
        assert t[i] == s[i - 1];
      }
    }
  }

  lemma {:induction false} InsertAscends(x: i32, s: seq<i32>)
    requires Ascending(s)
    ensures Ascending(Insert(x, s)) && forall y :: y in Insert(x, s) <==> y == x || y in s
  {
    if s == [] || x < s[0] {
      AscendingCons(x, s);
    } else if x > s[0] {
      InsertAscends(x, s[1..]);
      assert s == [s[0]] + s[1..];
      AscendingCons(s[0], Insert(x, s[1..]));
    }
  }

  /** The kept descriptors above the threshold, ascending. */
  method KeptAbove(min: i32, keep: seq<i32>) returns (kept: seq<i32>)
    ensures Ascending(kept) && forall y :: y in kept <==> y in keep && y > min
  {
    kept := [];
    for i := 0 to |keep|
      invariant Ascending(kept) && forall y :: y in kept <==> y in keep[..i] && y > min
    {
      assert keep[..i + 1] == keep[..i] + [keep[i]];
      if keep[i] > min {
        InsertAscends(keep[i], kept);
        kept := Insert(keep[i], kept);
      }
    }
    assert keep[..|keep|] == keep;
  }

  /** Below `low` exactly the descriptors above the threshold and not yet kept are closed. */
  ghost predicate Gaps(spans: seq<Span>, min: int, low: int, kept: seq<i32>) {
    forall fd: u32 :: Closed(spans, fd) <==> min < fd < low && fd !in kept
  }

  lemma ClosedSnoc(spans: seq<Span>, s: Span, fd: u32)
    ensures Closed(spans + [s], fd) <==> Closed(spans, fd) || s.first <= fd <= s.last
  {
    var all := spans + [s];
    if Closed(spans, fd) {
      var i :| 0 <= i < |spans| && spans[i].first <= fd <= spans[i].last;
      assert all[i] == spans[i];
    }
    assert all[|spans|] == s;
  }

  /** Closing the gap up to the next kept descriptor. */
  lemma GapClosed(spans: seq<Span>, min: int, low: u32, kept: seq<i32>, fd: i32)
    requires Gaps(spans, min, low, kept) && min < low <= fd && forall x :: x in kept ==> x < low
    ensures Gaps(if fd > low then spans + [Span(low, fd - 1)] else spans, min, fd + 1, kept + [fd])
  {
    var after := if fd > low then spans + [Span(low, fd - 1)] else spans;
    forall x: u32 ensures Closed(after, x) <==> min < x < fd + 1 && x !in kept + [fd] {
      if fd > low {
        ClosedSnoc(spans, Span(low, fd - 1), x);
      }
    }
  }

  /** `close_fds_above`: descriptors start at zero, so the threshold is at least -1. */
  method CloseFdsAbove(min: i32, keep: seq<i32>) returns (spans: seq<Span>)
    requires min >= -1
    ensures forall fd: u32 :: Closed(spans, fd) <==> fd > min && fd !in keep
  {
    var kept := KeptAbove(min, keep);
    spans := [];
    var next: i32 := Succ(min);
    for i := 0 to |kept|
      invariant min < AsUnsigned(next) == (if i == 0 then min else kept[i - 1]) + 1
      invariant forall x :: x in kept[..i] ==> x < AsUnsigned(next)
      invariant Gaps(spans, min, AsUnsigned(next), kept[..i])
    {
      var fd := kept[i];
      assert fd in kept;
      GapClosed(spans, min, AsUnsigned(next), kept[..i], fd);
      assert kept[..i + 1] == kept[..i] + [fd];
      if fd > next {
        spans := spans + [Span(AsUnsigned(next), fd - 1)];
      }
      next := Succ(fd);
      assert fd > min;
    }
    assert kept[..|kept|] == kept;
    forall fd: u32 ensures Closed(spans + [Span(AsUnsigned(next), U32_MAX)], fd) <==> fd > min && fd !in keep {
      ClosedSnoc(spans, Span(AsUnsigned(next), U32_MAX), fd);
      if fd <= I32_MAX {
        var y: i32 := fd;
        assert y in kept <==> y in keep && y > min;
      } else {
        assert fd !in kept && fd !in keep;
      }
    }
    spans := spans + [Span(AsUnsigned(next), U32_MAX)];
  }
}
