/** The formatter's pull path (Next) and buffered read path (Read) as
    functions of what they depend on: the bytes left in the active source, the
    latched error and the closed flag. The class in module Numbers is proved
    against these functions; the lemmas here state what they promise. */
module Stream {
  import opened Template

  datatype Option<T> = None | Some(value: T)

  /** The error kinds the formatter reports (message text is not modelled). */
  datatype Error =
    | EOF                // io.EOF: end of input; also what Close latches
    | UnexpectedEOF      // io.ErrUnexpectedEOF: input ended inside a window, or a write left nothing buffered
    | ShortWrite         // io.ErrShortWrite: a write of no bytes
    | ClosedPipe         // io.ErrClosedPipe: a write after Close
    | InvalidBufferSize  // a Read into fewer than 17 bytes

  /** The bytes left in the active source (the external source, or the
      internal buffer when there is none), the latched error, the closed flag. */
  datatype Feed = Feed(input: seq<byte>, err: Option<Error>, closed: bool)

  /** One call of Next: the number it returns ([] for "") and the feed after it. */
  datatype Pulled = Pulled(number: seq<byte>, rest: Feed)

  /** Several calls of Next in a row. */
  datatype Drained = Drained(numbers: seq<seq<byte>>, rest: Feed)

  /** One call of Read: the bytes it writes, the error it returns, the feed after it. */
  datatype Reading = Reading(out: seq<byte>, err: Option<Error>, rest: Feed)

  /** A formatted number and the separator that may follow it. */
  const STRIDE := 18

  function Min(a: int, b: int): int {
    if a <= b then a else b
  }

  /** Neither closed nor holding a latched error: Next will read. */
  predicate Healthy(f: Feed) {
    !f.closed && f.err.None?
  }

  /** The first `k` full windows of `s` hold only digits. */
  predicate WindowsAreDigits(s: seq<byte>, k: int) {
    forall i :: 0 <= i < |s| / WINDOW * WINDOW && i < WINDOW * k ==> IsDigit(s[i])
  }

  /** The next `k` calls of Next cannot meet a non-digit inside a full window
      (numbers.go panics when one does). */
  predicate Safe(f: Feed, k: int) {
    !Healthy(f) || WindowsAreDigits(f.input, k)
  }

  /** Next: closed or latched gives "" and reads nothing; an exhausted input
      gives "" and latches nothing; a partial window is consumed and latches
      io.ErrUnexpectedEOF; a full window is consumed and formatted. */
  function Pull(f: Feed): (r: Pulled)
    ensures |r.number| == 0 || |r.number| == WIDTH
    ensures r.rest.closed == f.closed
    ensures !Healthy(f) ==> r == Pulled([], f)
    ensures |r.rest.input| <= |f.input|
  {
    if f.closed then Pulled([], f)
    else if f.err.Some? then Pulled([], f)
    else if |f.input| == 0 then Pulled([], f)
    else if |f.input| < WINDOW then Pulled([], f.(input := [], err := Some(UnexpectedEOF)))
    else Pulled(Format(f.input[..WINDOW]), f.(input := f.input[WINDOW..]))
  }

  /** `k` calls of Next in a row. */
  function Drain(f: Feed, k: nat): (r: Drained)
    ensures |r.numbers| == k
    decreases k
  {
    if k == 0 then Drained([], f)
    else
      var p := Pull(f);
      var r := Drain(p.rest, k - 1);
      Drained([p.number] + r.numbers, r.rest)
  }

  /** Every sequence in `ns` is as long as one formatted number. */
  predicate Wide(ns: seq<seq<byte>>) {
    forall i :: 0 <= i < |ns| ==> |ns[i]| == WIDTH
  }

  /** The formatted numbers of the full windows of `s`, in order. */
  function AllNumbers(s: seq<byte>): (ns: seq<seq<byte>>)
    ensures |ns| == |s| / WINDOW
    ensures Wide(ns)
    decreases |s|
  {
    if |s| < WINDOW then [] else [Format(s[..WINDOW])] + AllNumbers(s[WINDOW..])
  }

  /** Number `j` of `s` is the formatting of window `j`. */
  lemma {:induction false} NumbersAt(s: seq<byte>, j: nat)
    requires j < |s| / WINDOW
    ensures WINDOW * j + WINDOW <= |s|
    ensures AllNumbers(s)[j] == Format(s[WINDOW * j..WINDOW * j + WINDOW])
  {
    if j > 0 {
      NumbersAt(s[WINDOW..], j - 1);
      assert s[WINDOW..][WINDOW * (j - 1)..WINDOW * (j - 1) + WINDOW] == s[WINDOW * j..WINDOW * j + WINDOW];
    }
  }

  /** The loop of Read, from `acc` already written into a buffer of `cap` bytes. */
  function Fill(f: Feed, cap: nat, acc: seq<byte>): (r: Reading)
    requires |acc| <= cap
    ensures |acc| <= |r.out| <= cap
    ensures r.rest.closed == f.closed
    decreases cap - |acc|
  {
    if |acc| == cap then Reading(acc, f.err, f)
    else
      var p := Pull(f);
      if p.number == [] then
        Reading(acc, if p.rest.err.Some? then p.rest.err else Some(EOF), p.rest)
      else Fill(p.rest, cap, Placed(acc, p.number, cap))
  }

  /** One turn of Read's loop: as much of the number as fits, then a
      separator when at least two bytes of room remain after it. */
  function Placed(acc: seq<byte>, num: seq<byte>, cap: nat): (next: seq<byte>)
    requires |acc| < cap && num != []
    ensures |acc| < |next| <= cap && next[..|acc|] == acc
    ensures |num| == WIDTH ==>
              |next| == cap || |next| == |acc| + STRIDE || |next| + 1 == cap == |acc| + STRIDE
  {
    var copied := acc + num[..Min(|num|, cap - |acc|)];
    if |copied| >= WIDTH && |copied| + 1 < cap then copied + [NEWLINE] else copied
  }

  /** One turn of Read's loop, seen from the feed before the pull. */
  lemma FillTurn(f: Feed, cap: nat, acc: seq<byte>)
    requires |acc| < cap
    ensures var p := Pull(f);
            if p.number == [] then
              Fill(f, cap, acc) == Reading(acc, if p.rest.err.Some? then p.rest.err else Some(EOF), p.rest)
            else
              Fill(f, cap, acc) == Fill(p.rest, cap, Placed(acc, p.number, cap))
  {
  }

  /** Read keeps pulling only while the pulls made so far leave room. */
  lemma PullsWanted(cap: nat, pulls: nat)
    requires STRIDE * pulls <= cap
    ensures pulls < Wanted(cap)
    ensures STRIDE * (pulls + 1) == STRIDE * pulls + STRIDE
  {
    StrideAt(pulls, 0);
  }

  /** Read into a buffer of `cap` bytes: a latched error is returned at once,
      a buffer shorter than one number is refused, and otherwise the loop runs. */
  function ReadSpec(f: Feed, cap: nat): (r: Reading)
    ensures |r.out| <= cap
    ensures r.rest.closed == f.closed
    ensures f.err.Some? ==> r == Reading([], f.err, f)
    ensures f.err.None? && cap < WIDTH ==> r == Reading([], Some(InvalidBufferSize), f)
  {
    if f.err.Some? then Reading([], f.err, f)
    else if cap < WIDTH then Reading([], Some(InvalidBufferSize), f)
    else Fill(f, cap, [])
  }

  /** The formatted number at offset `k` of Read's output, given the numbers
      `ns` it pulls: number `j` occupies offsets 18j to 18j+16; offset 18j+17
      holds '\n' when at least one byte of room follows it, and otherwise the
      first byte of number j+1, cut short by the end of the buffer. */
  predicate LaidAt(out: seq<byte>, ns: seq<seq<byte>>, cap: nat, k: nat)
    requires k < |out|
  {
    var j, i := k / STRIDE, k % STRIDE;
    if i < WIDTH then j < |ns| && i < |ns[j]| && out[k] == ns[j][i]
    else if k + 1 < cap then out[k] == NEWLINE
    else j + 1 < |ns| && 0 < |ns[j + 1]| && out[k] == ns[j + 1][0]
  }

  predicate Laid(out: seq<byte>, ns: seq<seq<byte>>, cap: nat) {
    forall k: nat :: k < |out| ==> LaidAt(out, ns, cap, k)
  }

  /** How many times Read calls Next when the input does not run out first. */
  function Wanted(cap: nat): nat {
    cap / STRIDE + 1
  }

  /** What one Read delivers from a healthy feed holding `input`, when `ns` are
      the numbers over the whole call and `todo` windows of `input` remain to
      be pulled when the input suffices: the bytes follow the layout; with
      enough input the buffer is filled, no error is returned and exactly the
      pulled windows are consumed; otherwise every number is written, the input
      is used up, and the result is io.EOF at a window boundary or a latched
      io.ErrUnexpectedEOF inside a window. */
  predicate Delivered(r: Reading, ns: seq<seq<byte>>, cap: nat, input: seq<byte>, todo: int) {
    Laid(r.out, ns, cap) && !r.rest.closed &&
    (Wanted(cap) <= |ns| ==>
       0 <= todo && WINDOW * todo <= |input| &&
       |r.out| == cap && r.err.None? && r.rest.err.None? &&
       r.rest.input == input[WINDOW * todo..]) &&
    (|ns| < Wanted(cap) ==>
       |r.out| == (if STRIDE * |ns| == cap then cap - 1 else STRIDE * |ns|) &&
       r.rest.input == [] &&
       (|input| % WINDOW == 0 ==> r.err == Some(EOF) && r.rest.err.None?) &&
       (|input| % WINDOW != 0 ==> r.err == Some(UnexpectedEOF) && r.rest.err == r.err))
  }

  lemma StrideAt(j: nat, i: nat)
    requires i < STRIDE
    ensures (STRIDE * j + i) / STRIDE == j && (STRIDE * j + i) % STRIDE == i
  {
  }

  /** Extending the list of numbers keeps a layout valid. */
  lemma LaidExtend(out: seq<byte>, ns: seq<seq<byte>>, more: seq<seq<byte>>, cap: nat)
    requires Laid(out, ns, cap)
    ensures Laid(out, ns + more, cap)
  {
    forall k: nat | k < |out|
      ensures LaidAt(out, ns + more, cap, k)
    {
      assert LaidAt(out, ns, cap, k);
    }
  }

  /** Writing the first `m` bytes of the next number keeps the layout. */
  lemma LaidNumber(acc: seq<byte>, done: seq<seq<byte>>, num: seq<byte>, m: nat, cap: nat)
    requires |acc| == STRIDE * |done| && Laid(acc, done, cap)
    requires |num| == WIDTH && m <= WIDTH
    ensures Laid(acc + num[..m], done + [num], cap)
  {
    LaidExtend(acc, done, [num], cap);
    var out := acc + num[..m];
    forall k: nat | k < |out|
      ensures LaidAt(out, done + [num], cap, k)
    {
      if k < |acc| {
        assert LaidAt(acc, done + [num], cap, k);
      } else {
        StrideAt(|done|, k - |acc|);
      }
    }
  }

  /** The separator after number `j` when room remains. */
  lemma LaidNewline(acc: seq<byte>, ns: seq<seq<byte>>, cap: nat)
    requires Laid(acc, ns, cap) && |acc| % STRIDE == WIDTH && |acc| + 1 < cap
    ensures Laid(acc + [NEWLINE], ns, cap)
  {
    var out := acc + [NEWLINE];
    forall k: nat | k < |out|
      ensures LaidAt(out, ns, cap, k)
    {
      if k < |acc| {
        assert LaidAt(acc, ns, cap, k);
      }
    }
  }

  /** The last byte of a buffer whose length is a multiple of 18: the first
      byte of the next number takes the separator's place. */
  lemma LaidGlued(acc: seq<byte>, ns: seq<seq<byte>>, num: seq<byte>, cap: nat)
    requires Laid(acc, ns, cap) && |acc| + 1 == cap && |acc| % STRIDE == WIDTH
    requires |acc| / STRIDE + 1 == |ns| && |num| == WIDTH
    ensures Laid(acc + num[..1], ns + [num], cap)
  {
    LaidExtend(acc, ns, [num], cap);
    var out := acc + num[..1];
    forall k: nat | k < |out|
      ensures LaidAt(out, ns + [num], cap, k)
    {
      if k < |acc| {
        assert LaidAt(acc, ns + [num], cap, k);
      }
    }
  }

  /** The loop of Read when the input holds no further full window. */
  lemma FillAtEnd(f: Feed, cap: nat, done: seq<seq<byte>>, acc: seq<byte>)
    requires Healthy(f) && |f.input| < WINDOW
    requires |acc| == STRIDE * |done| < cap && Laid(acc, done, cap)
    ensures Delivered(Fill(f, cap, acc), done + AllNumbers(f.input), cap, f.input, Wanted(cap) - |done|)
  {
    assert done + AllNumbers(f.input) == done;
    assert Fill(f, cap, acc).out == acc;
  }

  /** The loop of Read with one byte of room left after a number: one more
      pull, whose first byte (if any) fills it. */
  lemma FillLastByte(f: Feed, cap: nat, ns: seq<seq<byte>>, acc: seq<byte>)
    requires Healthy(f) && 0 < |ns|
    requires |acc| + 1 == cap && |acc| == STRIDE * (|ns| - 1) + WIDTH && Laid(acc, ns, cap)
    ensures var r := Fill(f, cap, acc);
            Laid(r.out, ns + AllNumbers(f.input), cap) && !r.rest.closed &&
            (WINDOW <= |f.input| ==>
               |r.out| == cap && r.err.None? && r.rest.err.None? && r.rest.input == f.input[WINDOW..]) &&
            (|f.input| < WINDOW ==>
               r.out == acc && r.rest.input == [] &&
               (|f.input| == 0 ==> r.err == Some(EOF) && r.rest.err.None?) &&
               (|f.input| != 0 ==> r.err == Some(UnexpectedEOF) && r.rest.err == r.err))
  {
    var r := Fill(f, cap, acc);
    if |f.input| < WINDOW {
      assert ns + AllNumbers(f.input) == ns;
    } else {
      var num := Format(f.input[..WINDOW]);
      var tail := f.input[WINDOW..];
      assert Pull(f) == Pulled(num, f.(input := tail));
      assert Fill(f, cap, acc) == Fill(f.(input := tail), cap, Placed(acc, num, cap));
      assert Placed(acc, num, cap) == acc + num[..1];
      assert r.out == acc + num[..1];
      StrideAt(|ns| - 1, WIDTH);
      LaidGlued(acc, ns, num, cap);
      assert AllNumbers(f.input) == [num] + AllNumbers(tail);
      assert ns + AllNumbers(f.input) == (ns + [num]) + AllNumbers(tail);
      LaidExtend(r.out, ns + [num], AllNumbers(tail), cap);
    }
  }

  /** The loop of Read when the next number ends one byte before the end of
      the buffer: no separator fits, and one more pull may place a single byte. */
  lemma FillGlued(f: Feed, cap: nat, done: seq<seq<byte>>, acc: seq<byte>)
    requires Healthy(f) && WINDOW <= |f.input|
    requires |acc| == STRIDE * |done| && STRIDE * (|done| + 1) == cap && Laid(acc, done, cap)
    ensures Delivered(Fill(f, cap, acc), done + AllNumbers(f.input), cap, f.input, Wanted(cap) - |done|)
  {
    var input := f.input;
    StrideAt(|done| + 1, 0);
    assert Wanted(cap) == |done| + 2;
    var num := Format(input[..WINDOW]);
    var rest := input[WINDOW..];
    var f1 := f.(input := rest);
    assert AllNumbers(input) == [num] + AllNumbers(rest);
    assert done + AllNumbers(input) == (done + [num]) + AllNumbers(rest);
    var copied := acc + num;
    assert num[..WIDTH] == num;
    LaidNumber(acc, done, num, WIDTH, cap);
    assert Fill(f, cap, acc) == Fill(f1, cap, copied);
    FillLastByte(f1, cap, done + [num], copied);
    if WINDOW <= |rest| {
      assert rest[WINDOW..] == input[WINDOW * 2..];
    } else {
      assert |input| % WINDOW == |rest|;
    }
  }

  /** The loop of Read when the next number does not fit whole: it is cut at
      the end of the buffer and the call ends. */
  lemma FillCut(f: Feed, cap: nat, done: seq<seq<byte>>, acc: seq<byte>)
    requires Healthy(f) && WINDOW <= |f.input|
    requires |acc| == STRIDE * |done| < cap < STRIDE * (|done| + 1) && Laid(acc, done, cap)
    ensures Delivered(Fill(f, cap, acc), done + AllNumbers(f.input), cap, f.input, Wanted(cap) - |done|)
  {
    var input := f.input;
    var num := Format(input[..WINDOW]);
    var rest := input[WINDOW..];
    assert AllNumbers(input) == [num] + AllNumbers(rest);
    var m := cap - |acc|;
    LaidNumber(acc, done, num, m, cap);
    var r := Fill(f, cap, acc);
    assert Placed(acc, num, cap) == acc + num[..m];
    assert r == Fill(f.(input := rest), cap, acc + num[..m]);
    assert done + AllNumbers(input) == (done + [num]) + AllNumbers(rest);
    LaidExtend(r.out, done + [num], AllNumbers(rest), cap);
    StrideAt(|done|, cap - STRIDE * |done|);
    assert Wanted(cap) == |done| + 1;
  }

  /** The loop of Read, from a point where `done` numbers and their separators
      have been written, delivers the layout of all numbers it pulls. */
  lemma {:induction false} FillLayout(f: Feed, cap: nat, done: seq<seq<byte>>, acc: seq<byte>)
    requires Healthy(f)
    requires |acc| == STRIDE * |done| < cap && Laid(acc, done, cap)
    ensures Delivered(Fill(f, cap, acc), done + AllNumbers(f.input), cap, f.input, Wanted(cap) - |done|)
    decreases |f.input|
  {
    var input := f.input;
    if |input| < WINDOW {
      FillAtEnd(f, cap, done, acc);
    } else if STRIDE * (|done| + 1) == cap {
      FillGlued(f, cap, done, acc);
    } else if cap < STRIDE * (|done| + 1) {
      FillCut(f, cap, done, acc);
    } else {
      var num := Format(input[..WINDOW]);
      var next := acc + num + [NEWLINE];
      assert num[..WIDTH] == num;
      LaidNumber(acc, done, num, WIDTH, cap);
      LaidNewline(acc + num, done + [num], cap);
      var rest := input[WINDOW..];
      FillLayout(f.(input := rest), cap, done + [num], next);
      FillWhole(f, cap, acc);
      assert done + AllNumbers(input) == (done + [num]) + AllNumbers(rest);
      DeliveredShift(Fill(f, cap, acc), done + AllNumbers(input), cap, input, Wanted(cap) - |done|);
    }
  }

  /** What a Read delivers from the input after one window is what it
      delivers from the whole input, with one more window to pull. */
  lemma DeliveredShift(r: Reading, ns: seq<seq<byte>>, cap: nat, input: seq<byte>, todo: int)
    requires WINDOW <= |input| && Delivered(r, ns, cap, input[WINDOW..], todo - 1)
    ensures Delivered(r, ns, cap, input, todo)
  {
    var rest := input[WINDOW..];
    if Wanted(cap) <= |ns| {
      assert rest[WINDOW * (todo - 1)..] == input[WINDOW * todo..];
    }
  }

  /** One turn that places a whole number and its separator. */
  lemma FillWhole(f: Feed, cap: nat, acc: seq<byte>)
    requires Healthy(f) && WINDOW <= |f.input| && |acc| + STRIDE < cap
    ensures var num := Format(f.input[..WINDOW]);
            Fill(f, cap, acc) == Fill(f.(input := f.input[WINDOW..]), cap, acc + num + [NEWLINE]) &&
            AllNumbers(f.input) == [num] + AllNumbers(f.input[WINDOW..])
  {
    var num := Format(f.input[..WINDOW]);
    assert num[..WIDTH] == num;
    assert Placed(acc, num, cap) == acc + num + [NEWLINE];
  }

  /** The layout of one Read on a healthy feed. */
  lemma ReadLayout(f: Feed, cap: nat)
    requires Healthy(f) && WIDTH <= cap
    ensures Delivered(ReadSpec(f, cap), AllNumbers(f.input), cap, f.input, Wanted(cap))
  {
    FillLayout(f, cap, [], []);
    assert [] + AllNumbers(f.input) == AllNumbers(f.input);
  }

  /** A window size of empty results. */
  function Blanks(k: nat): (r: seq<seq<byte>>)
    ensures |r| == k
  {
    seq(k, i => [])
  }

  /** Once a call of Next returns "" without changing anything, every later
      call does the same. */
  lemma {:induction false} DrainFixed(f: Feed, k: nat)
    requires Pull(f) == Pulled([], f)
    ensures Drain(f, k) == Drained(Blanks(k), f)
  {
    if k > 0 {
      DrainFixed(f, k - 1);
      assert [[]] + Blanks(k - 1) == Blanks(k);
    }
  }

  /** A latched error stays latched: whatever bytes the source now holds,
      every call of Next returns "" and reads nothing until Reset. */
  lemma Latched(f: Feed, input: seq<byte>, k: nat)
    requires f.err.Some?
    ensures Drain(f.(input := input), k) == Drained(Blanks(k), f.(input := input))
  {
    DrainFixed(f.(input := input), k);
  }

  /** Calls of Next in a row split at any point. */
  lemma {:induction false} DrainSplit(f: Feed, a: nat, b: nat)
    ensures var first := Drain(f, a);
            var second := Drain(first.rest, b);
            Drain(f, a + b) == Drained(first.numbers + second.numbers, second.rest)
    decreases a
  {
    if a > 0 {
      var p := Pull(f);
      DrainSplit(p.rest, a - 1, b);
      var first := Drain(p.rest, a - 1);
      var second := Drain(first.rest, b);
      assert Drain(f, a) == Drained([p.number] + first.numbers, first.rest);
      assert Drain(f, a + b) == Drained([p.number] + Drain(p.rest, a - 1 + b).numbers, second.rest);
      assert [p.number] + (first.numbers + second.numbers) == ([p.number] + first.numbers) + second.numbers;
    } else {
      assert Drain(f, 0).numbers == [];
    }
  }

  /** On a healthy feed, each call of Next consumes the next eleven bytes and
      returns their formatting, as long as full windows remain. */
  lemma {:induction false} DrainNumbers(f: Feed, k: nat)
    requires Healthy(f) && k <= |f.input| / WINDOW
    ensures WINDOW * k <= |f.input|
    ensures Drain(f, k) == Drained(AllNumbers(f.input)[..k], f.(input := f.input[WINDOW * k..]))
    decreases k
  {
    if k > 0 {
      var input := f.input;
      var rest := input[WINDOW..];
      DrainNumbers(f.(input := rest), k - 1);
      assert AllNumbers(input) == [Format(input[..WINDOW])] + AllNumbers(rest);
      assert AllNumbers(input)[..k] == [Format(input[..WINDOW])] + AllNumbers(rest)[..k - 1];
      assert rest[WINDOW * (k - 1)..] == input[WINDOW * k..];
    } else {
      assert f.input[0..] == f.input;
    }
  }

  /** Pulling from a fresh feed over `s`: the first |s|/11 calls return the
      formatted windows, and every later call returns "". The error is left
      unset exactly when |s| is a multiple of 11; otherwise the partial window
      latches io.ErrUnexpectedEOF. */
  lemma DrainToEnd(s: seq<byte>, extra: nat)
    ensures var k := |s| / WINDOW;
            var r := Drain(Feed(s, None, false), k + 1 + extra);
            r.numbers[..k] == AllNumbers(s) &&
            (forall i :: k <= i < |r.numbers| ==> r.numbers[i] == []) &&
            r.rest.input == [] && !r.rest.closed &&
            (r.rest.err.None? <==> |s| % WINDOW == 0) &&
            (r.rest.err.Some? ==> r.rest.err == Some(UnexpectedEOF))
  {
    var f := Feed(s, None, false);
    var k := |s| / WINDOW;
    DrainNumbers(f, k);
    var mid := f.(input := s[WINDOW * k..]);
    DrainTail(mid, extra);
    DrainSplit(f, k, 1 + extra);
  }

  /** Fewer than eleven bytes left: one more call of Next uses them up, and it
      and every later call return "". */
  lemma DrainTail(f: Feed, extra: nat)
    requires Healthy(f) && |f.input| < WINDOW
    ensures var r := Drain(f, 1 + extra);
            r.numbers == Blanks(1 + extra) && r.rest.input == [] && !r.rest.closed &&
            (r.rest.err.None? <==> |f.input| == 0) &&
            (r.rest.err.Some? ==> r.rest.err == Some(UnexpectedEOF))
  {
    var last := Pull(f);
    assert Pull(last.rest) == Pulled([], last.rest);
    DrainFixed(last.rest, extra);
    assert [[]] + Blanks(extra) == Blanks(1 + extra);
  }

  /** The error a fresh feed over `s` is left with once every window has
      been pulled: none at a window boundary, a short read otherwise. */
  function TailError(s: seq<byte>): (e: Option<Error>)
    ensures e.None? <==> |s| % WINDOW == 0
  {
    if |s| % WINDOW == 0 then None else Some(UnexpectedEOF)
  }

  /** The pull of a full window `j` of `s`. */
  lemma PullWindow(s: seq<byte>, j: nat)
    requires j < |s| / WINDOW
    ensures WINDOW * (j + 1) <= |s|
    ensures Pull(Feed(s[WINDOW * j..], None, false))
            == Pulled(AllNumbers(s)[j], Feed(s[WINDOW * (j + 1)..], None, false))
  {
    NumbersAt(s, j);
    var f := Feed(s[WINDOW * j..], None, false);
    var w := s[WINDOW * j..WINDOW * j + WINDOW];
    assert f.input[..WINDOW] == w;
    assert f.input[WINDOW..] == s[WINDOW * (j + 1)..];
  }

  /** The pull after the last full window of `s`. */
  lemma PullTail(s: seq<byte>)
    ensures WINDOW * (|s| / WINDOW) <= |s|
    ensures var p := Pull(Feed(s[WINDOW * (|s| / WINDOW)..], None, false));
            p.number == [] && p.rest.input == [] && p.rest.err == TailError(s)
  {
    assert |s[WINDOW * (|s| / WINDOW)..]| == |s| % WINDOW;
  }

  /** Safety for `k` pulls leaves safety for `k - 1` after one of them. */
  lemma SafeAfterPull(f: Feed, k: int)
    requires Safe(f, k)
    ensures Safe(Pull(f).rest, k - 1)
  {
    var g := Pull(f).rest;
    if Healthy(f) && Healthy(g) && WINDOW <= |f.input| {
      assert g.input == f.input[WINDOW..];
      assert |g.input| / WINDOW == |f.input| / WINDOW - 1;
      forall i | 0 <= i < |g.input| / WINDOW * WINDOW && i < WINDOW * (k - 1)
        ensures IsDigit(g.input[i])
      {
        assert g.input[i] == f.input[i + WINDOW];
      }
    }
  }

  /** The window the next call of Next formats holds only digits. */
  lemma SafeWindow(f: Feed)
    requires Healthy(f) && Safe(f, 1) && WINDOW <= |f.input|
    ensures AllDigits(f.input[..WINDOW])
  {
    assert |f.input| / WINDOW >= 1;
  }

  /** An input of digits only is safe for any number of pulls. */
  lemma DigitsAreSafe(f: Feed, k: int)
    requires AllDigits(f.input)
    ensures Safe(f, k)
  {
  }

  /** One number and room for one or more: Read writes the number, and a
      separator after it when at least two bytes of room remain; it reports
      no error only when the room is exactly one number, and io.EOF otherwise. */
  lemma ReadOne(d: seq<byte>, cap: nat)
    requires |d| == WINDOW && WIDTH <= cap
    ensures var r := ReadSpec(Feed(d, None, false), cap);
            r.out == Format(d) + (if STRIDE < cap then [NEWLINE] else []) &&
            r.err == (if cap == WIDTH then None else Some(EOF)) &&
            r.rest == Feed([], None, false)
  {
    var f := Feed(d, None, false);
    ReadLayout(f, cap);
    assert d[..WINDOW] == d && d[WINDOW..] == [];
    assert AllNumbers(d[WINDOW..]) == [];
    assert AllNumbers(d) == [Format(d)];
    var ns := AllNumbers(d);
    var r := ReadSpec(f, cap);
    var want := Format(d) + (if STRIDE < cap then [NEWLINE] else []);
    if cap == WIDTH {
      assert Wanted(cap) == 1;
    } else {
      assert Wanted(cap) >= 2;
    }
    assert |r.out| == |want|;
    forall k | 0 <= k < |r.out|
      ensures r.out[k] == want[k]
    {
      assert LaidAt(r.out, ns, cap, k);
      StrideAt(0, k);
    }
  }

  /** Two numbers into 35 bytes: the first, a separator, the second, and no error. */
  lemma ReadTwo(d1: seq<byte>, d2: seq<byte>)
    requires |d1| == WINDOW && |d2| == WINDOW
    ensures ReadSpec(Feed(d1 + d2, None, false), WIDTH + STRIDE)
            == Reading(Format(d1) + [NEWLINE] + Format(d2), None, Feed([], None, false))
  {
    var s := d1 + d2;
    var f := Feed(s, None, false);
    var cap := WIDTH + STRIDE;
    ReadLayout(f, cap);
    assert s[..WINDOW] == d1 && s[WINDOW..] == d2;
    assert d2[..WINDOW] == d2 && d2[WINDOW..] == [];
    assert AllNumbers(d2[WINDOW..]) == [];
    assert AllNumbers(d2) == [Format(d2)];
    var ns := AllNumbers(s);
    assert ns == [Format(d1), Format(d2)];
    var r := ReadSpec(f, cap);
    var want := Format(d1) + [NEWLINE] + Format(d2);
    assert Wanted(cap) == 2;
    assert |r.out| == |want|;
    forall k | 0 <= k < |r.out|
      ensures r.out[k] == want[k]
    {
      assert LaidAt(r.out, ns, cap, k);
      if k >= STRIDE {
        StrideAt(1, k - STRIDE);
      }
    }
    assert s[WINDOW * 2..] == [];
  }

  /** Read's separators: offset k of the output is '\n' exactly when k is the
      offset after a number and at least two bytes of room remain from k. */
  lemma ReadSeparators(f: Feed, cap: nat)
    requires Healthy(f) && WIDTH <= cap && WindowsAreDigits(f.input, Wanted(cap))
    ensures var out := ReadSpec(f, cap).out;
            forall k :: 0 <= k < |out| ==> (out[k] == NEWLINE <==> k % STRIDE == WIDTH && k + 2 <= cap)
  {
    ReadLayout(f, cap);
    var out := ReadSpec(f, cap).out;
    var ns := AllNumbers(f.input);
    forall k | 0 <= k < |out|
      ensures out[k] == NEWLINE <==> k % STRIDE == WIDTH && k + 2 <= cap
    {
      assert LaidAt(out, ns, cap, k);
      var j, i := k / STRIDE, k % STRIDE;
      if i < WIDTH {
        NumberHasNoNewline(f.input, cap, j);
      } else if cap <= k + 1 {
        NumbersAt(f.input, j + 1);
        FormatLayout(f.input[WINDOW * (j + 1)..WINDOW * (j + 1) + WINDOW]);
      }
    }
  }

  /** A number Read may pull holds no '\n'. */
  lemma NumberHasNoNewline(s: seq<byte>, cap: nat, j: nat)
    requires WindowsAreDigits(s, Wanted(cap)) && j < |s| / WINDOW && j < Wanted(cap)
    ensures forall i :: 0 <= i < |AllNumbers(s)[j]| ==> AllNumbers(s)[j][i] != NEWLINE
  {
    NumbersAt(s, j);
    var w := s[WINDOW * j..WINDOW * j + WINDOW];
    assert |s| / WINDOW * WINDOW >= WINDOW * j + WINDOW;
    forall i | 0 <= i < WINDOW
      ensures IsDigit(w[i])
    {
      assert w[i] == s[WINDOW * j + i];
    }
    FormatHasNoNewline(w);
  }

  /** After Close (and after a Reset that followed it) Next returns "" and
      Read writes nothing: the latched io.EOF, or io.EOF from the pull that
      found the formatter closed. */
  lemma ReadWhenClosed(f: Feed, cap: nat)
    requires f.closed
    ensures Pull(f) == Pulled([], f)
    ensures ReadSpec(f, cap).out == []
    ensures f.err == Some(EOF) ==> ReadSpec(f, cap).err == Some(EOF)
    ensures f.err.None? && WIDTH <= cap ==> ReadSpec(f, cap) == Reading([], Some(EOF), f)
  {
  }
}
