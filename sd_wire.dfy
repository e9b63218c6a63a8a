/** What the card clocks back on MISO, as a script indexed by byte-clock, and
    the bounded polling loops of the driver stated over that script. */
module SdWire {
  import opened SdDefs

  /** The byte the card drives at byte-clock `i`; past the end of the script
      the pulled-up MISO line reads as 0xFF. */
  function At(s: seq<byte>, i: nat): byte {
    if i < |s| then s[i] else DummyByte
  }

  /** `n` fill bytes, what `n` reads put on MOSI. */
  function FFs(n: nat): (r: seq<byte>)
    ensures |r| == n
  {
    if n == 0 then [] else FFs(n - 1) + [DummyByte]
  }

  lemma {:induction false} FFsAt(n: nat, j: nat)
    requires j < n
    ensures FFs(n)[j] == DummyByte
  {
    if j < n - 1 { FFsAt(n - 1, j); }
  }

  lemma {:induction false} FFsAdd(a: nat, b: nat)
    ensures FFs(a) + FFs(b) == FFs(a + b)
    decreases b
  {
    if b > 0 {
      FFsAdd(a, b - 1);
      assert FFs(a) + FFs(b) == FFs(a) + FFs(b - 1) + [DummyByte];
    }
  }

  /** The `n` bytes the card clocks back from clock `c` on. */
  function Slice(s: seq<byte>, c: nat, n: nat): seq<byte> {
    seq(n, j requires 0 <= j < n => At(s, c + j))
  }

  /** The stop condition of a polling loop. */
  datatype Until =
    | Ready     // wait_ready: stop at 0xFF
    | Token     // rcvr_datablock: stop at anything but 0xFF
    | Response  // send_cmd: stop at an R1 byte with bit 7 clear

  predicate Stops(u: Until, b: byte) {
    match u
    case Ready => b == 0xFF
    case Token => b != 0xFF
    case Response => b & 0x80 == 0
  }

  /** The outcome of a polling loop: the last byte read and how many it took. */
  datatype Polled = Polled(last: byte, taken: nat)

  /** The clock of the byte a polling loop stops on: the first clock from
      `i` on whose byte meets `u`, or `last`, the final clock of its bound. */
  function PollEnd(s: seq<byte>, i: nat, last: nat, u: Until): (e: nat)
    requires i <= last
    ensures i <= e <= last
    decreases last - i
  {
    if Stops(u, At(s, i)) || i == last then i else PollEnd(s, i + 1, last, u)
  }

  /** A loop that reads at most `n` bytes from clock `c`, stopping at the first
      byte meeting `u`; it returns the last byte it read. */
  function Poll(s: seq<byte>, c: nat, n: nat, u: Until): (p: Polled)
    requires n >= 1
    ensures 1 <= p.taken <= n
  {
    var e := PollEnd(s, c, c + n - 1, u);
    Polled(At(s, e), e - c + 1)
  }

  /** No byte before the end of a poll meets its stop condition, and the
      poll ends early only on a byte that does. */
  lemma {:induction false} PollEndSpec(s: seq<byte>, i: nat, last: nat, u: Until)
    requires i <= last
    ensures forall j :: i <= j < PollEnd(s, i, last, u) ==> !Stops(u, At(s, j))
    ensures Stops(u, At(s, PollEnd(s, i, last, u))) || PollEnd(s, i, last, u) == last
    decreases last - i
  {
    if !(Stops(u, At(s, i)) || i == last) {
      PollEndSpec(s, i + 1, last, u);
    }
  }

  /** A poll ends at the first byte meeting the stop condition, or after
      `n` reads; it returns the last byte read. */
  lemma PollSpec(s: seq<byte>, c: nat, n: nat, u: Until)
    requires n >= 1
    ensures Poll(s, c, n, u).last == At(s, c + Poll(s, c, n, u).taken - 1)
    ensures forall i :: c <= i < c + Poll(s, c, n, u).taken - 1 ==> !Stops(u, At(s, i))
    ensures Stops(u, Poll(s, c, n, u).last) || Poll(s, c, n, u).taken == n
  {
    PollEndSpec(s, c, c + n - 1, u);
  }

  /** The converse of PollEndSpec: a clock `k` before which no byte meets
      the stop condition, and at which one does or the bound is reached, is
      where the poll ends. This is what a polling loop establishes. */
  lemma {:induction false} PollEndIs(s: seq<byte>, i: nat, last: nat, u: Until, k: nat)
    requires i <= k <= last
    requires forall j :: i <= j < k ==> !Stops(u, At(s, j))
    requires Stops(u, At(s, k)) || k == last
    ensures PollEnd(s, i, last, u) == k
    decreases k - i
  {
    if i < k {
      assert !Stops(u, At(s, i));
      PollEndIs(s, i + 1, last, u, k);
    }
  }

  /** A poll succeeds exactly when some byte within its bound meets the stop
      condition, and then it stops at the first such byte. */
  lemma PollFinds(s: seq<byte>, c: nat, n: nat, u: Until)
    requires n >= 1
    ensures Stops(u, Poll(s, c, n, u).last) <==> exists i :: c <= i < c + n && Stops(u, At(s, i))
    ensures Stops(u, Poll(s, c, n, u).last) ==>
              forall i :: c <= i < c + n && Stops(u, At(s, i)) ==> c + Poll(s, c, n, u).taken - 1 <= i
  {
    var p := Poll(s, c, n, u);
    PollSpec(s, c, n, u);
    if Stops(u, p.last) {
      assert Stops(u, At(s, c + (p.taken - 1)));
    }
  }

  /** `a` with the bytes of `d` written over it from index `off`, as a copy
      into a caller's buffer leaves it. */
  function Overwrite(a: seq<byte>, off: nat, d: seq<byte>): (r: seq<byte>)
    requires off + |d| <= |a|
    ensures |r| == |a|
  {
    Overwritten(a, off, d, 1)
  }

  /** `Overwrite` after `steps` recursive steps. The recursion keeps the
      verifier from expanding the splice wherever a buffer's contents are
      mentioned; `OverwriteIs` gives it back where it is needed. */
  function Overwritten(a: seq<byte>, off: nat, d: seq<byte>, steps: nat): (r: seq<byte>)
    requires off + |d| <= |a|
    ensures |r| == |a|
    decreases steps, a
  {
    if steps == 0 then a[..off] + d + a[off + |d|..] else Overwritten(a, off, d, steps - 1)
  }

  lemma OverwriteIs(a: seq<byte>, off: nat, d: seq<byte>)
    requires off + |d| <= |a|
    ensures Overwrite(a, off, d) == a[..off] + d + a[off + |d|..]
  {
    assert Overwritten(a, off, d, 0) == a[..off] + d + a[off + |d|..];
  }

  /** Overwriting keeps the length, puts `d` at `off` and leaves the rest. */
  lemma OverwriteAt(a: seq<byte>, off: nat, d: seq<byte>)
    requires off + |d| <= |a|
    ensures |Overwrite(a, off, d)| == |a|
    ensures forall j :: 0 <= j < |a| ==> Overwrite(a, off, d)[j] == if off <= j < off + |d| then d[j - off] else a[j]
  {
    OverwriteIs(a, off, d);
  }

  /** Overwriting with nothing leaves the buffer as it was. */
  lemma OverwriteNothing(a: seq<byte>, off: nat)
    requires off <= |a|
    ensures Overwrite(a, off, []) == a
  {
    OverwriteIs(a, off, []);
    assert a[..off] + [] + a[off..] == a;
  }

  /** Filling a buffer from the start in two pieces fills it with both. */
  lemma OverwriteTwice(a: seq<byte>, d: seq<byte>, e: seq<byte>)
    requires |d| + |e| <= |a|
    ensures Overwrite(Overwrite(a, 0, d), |d|, e) == Overwrite(a, 0, d + e)
  {
    var o := Overwrite(a, 0, d);
    OverwriteIs(a, 0, d);
    OverwriteIs(o, |d|, e);
    OverwriteIs(a, 0, d + e);
    assert o[..|d|] == d;
    assert o[|d| + |e|..] == a[|d| + |e|..];
  }

  /** Regrouping a log: what is appended step by step is the old log plus
      the steps' bytes taken together. */
  lemma Regroup(a: seq<byte>, b: seq<byte>, c: seq<byte>)
    ensures a + b + c == a + (b + c)
  {
  }
}
