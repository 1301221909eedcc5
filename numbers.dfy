/** The formatter object. Its methods change its four fields as the Go code's
    methods do, and each is proved against the functions of module Stream:
    Next against Pull, Read against ReadSpec. */
module Numbers {
  import opened Template
  import opened Stream

  class NumberFormatter {
    /** The external source as the bytes it has left; None when the formatter
        reads back what was written into it. */
    var src: Option<seq<byte>>
    /** The latched error: once set, only Reset clears it. */
    var err: Option<Error>
    /** The FIFO the push path appends to. */
    var buf: seq<byte>
    var closed: bool

    /** The buffer holds only digits, and nothing once the formatter is closed. */
    ghost predicate Valid()
      reads this
    {
      AllDigits(buf) && (closed ==> buf == [])
    }

    /** The bytes Next reads: the source, or the buffer when there is none. */
    function Input(): seq<byte>
      reads this
    {
      if src.Some? then src.value else buf
    }

    /** What Next and Read depend on. */
    function View(): Feed
      reads this
    {
      Feed(Input(), err, closed)
    }

    /** The latched error. */
    function Err(): Option<Error>
      reads this
    {
      err
    }

    /** NewNumberFormatter. */
    constructor (source: Option<seq<byte>>)
      ensures Valid()
      ensures src == source && err.None? && buf == [] && !closed
    {
      src := source;
      err := None;
      buf := [];
      closed := false;
    }

    /** Binds a new source, clears the latched error and empties the buffer;
        a closed formatter stays closed. */
    method Reset(source: Option<seq<byte>>)
      requires Valid()
      modifies this
      ensures Valid()
      ensures src == source && err.None? && buf == [] && closed == old(closed)
    {
      src := source;
      err := None;
      buf := [];
    }

    /** Drops the buffer and the source, latches io.EOF and marks the
        formatter closed. The source is dropped before the check for a
        closable source, so that check never succeeds and nil is returned. */
    method Close() returns (e: Option<Error>)
      requires Valid()
      modifies this
      ensures Valid()
      ensures closed && err == Some(EOF) && src.None? && buf == []
      ensures e.None?
    {
      buf := [];
      err := Some(EOF);
      src := None;
      closed := true;
      e := None;
    }

    /** The next formatted number, or [] (the empty string). Closed or
        latched: nothing is read. Otherwise up to eleven bytes are read from
        the active input; none left ends the stream without an error, a
        partial window latches io.ErrUnexpectedEOF, a full window is formatted. */
    method Next() returns (out: seq<byte>)
      requires Valid() && Safe(View(), 1)
      modifies this
      ensures Valid() && closed == old(closed)
      ensures Pulled(out, View()) == Pull(old(View()))
      ensures old(src).Some? ==> src.Some? && buf == old(buf)
      ensures old(src).None? ==> src.None?
    {
      if closed {
        return [];
      }
      if err.Some? {
        return [];
      }
      var input := Input();
      if WINDOW <= |input| {
        SafeWindow(View());
      }
      var n := Min(|input|, WINDOW);
      var window := input[..n];
      if src.Some? {
        src := Some(input[n..]);
      } else {
        buf := input[n..];
      }
      if n == 0 {
        return [];
      }
      if n < WINDOW {
        err := Some(UnexpectedEOF);
        return [];
      }
      out := FormatWindow(window);
    }

    /** Appends the digits of `p`, in order, to the buffer. The latched error
        is not consulted. An empty `p`, a closed formatter, and a buffer that
        is still empty afterwards are errors; otherwise the result is the
        number of digits appended. */
    method Write(p: seq<byte>) returns (n: nat, e: Option<Error>)
      requires Valid()
      modifies this
      ensures Valid()
      ensures src == old(src) && err == old(err) && closed == old(closed)
      ensures |p| == 0 ==> n == 0 && e == Some(ShortWrite) && buf == old(buf)
      ensures |p| != 0 && closed ==> n == 0 && e == Some(ClosedPipe) && buf == old(buf)
      ensures |p| != 0 && !closed ==> buf == old(buf) + Digits(p)
      ensures |p| != 0 && !closed && buf == [] ==> n == 0 && e == Some(UnexpectedEOF)
      ensures |p| != 0 && !closed && buf != [] ==> n == |Digits(p)| && e.None?
    {
      var before := |buf|;
      if |p| == 0 {
        return 0, Some(ShortWrite);
      }
      if closed {
        return 0, Some(ClosedPipe);
      }
      for i := 0 to |p|
        invariant buf == old(buf) + Digits(p[..i])
        invariant AllDigits(buf)
        invariant src == old(src) && err == old(err) && closed == old(closed)
      {
        assert p[..i + 1][..i] == p[..i];
        if IsDigit(p[i]) {
          buf := buf + [p[i]];
        }
      }
      assert p[..|p|] == p;
      if |buf| == 0 {
        return 0, Some(UnexpectedEOF);
      }
      n := |buf| - before;
      e := None;
    }

    /** Fills `p` with formatted numbers and separators by calling Next until
        the array is full or Next returns []. */
    method Read(p: array<byte>) returns (n: nat, e: Option<Error>)
      requires Valid() && (WIDTH <= p.Length ==> Safe(View(), Wanted(p.Length)))
      modifies this, p
      ensures Valid()
      ensures var r := ReadSpec(old(View()), p.Length);
              n == |r.out| && p[..n] == r.out && e == r.err && View() == r.rest
      ensures forall k :: n <= k < p.Length ==> p[k] == old(p[k])
      ensures old(src).Some? ==> src.Some? && buf == old(buf)
      ensures old(src).None? ==> src.None?
    {
      if err.Some? {
        return 0, err;
      }
      if p.Length < WIDTH {
        return 0, Some(InvalidBufferSize);
      }
      n := 0;
      ghost var pulls := 0;
      ghost var laid := 0;
      ghost var spec := ReadSpec(old(View()), p.Length);
      ghost var orig := p[..];
      while n < p.Length
        invariant n <= p.Length == |orig|
        invariant Valid() && err.None? && closed == old(closed)
        invariant Fill(View(), p.Length, p[..n]) == spec
        invariant forall k :: n <= k < p.Length ==> p[k] == orig[k]
        invariant laid == STRIDE * pulls
        invariant n == p.Length || n == laid || n + 1 == p.Length == laid
        invariant Safe(View(), Wanted(p.Length) - pulls)
        invariant old(src).Some? ==> src.Some? && buf == old(buf)
        invariant old(src).None? ==> src.None?
        decreases p.Length - n
      {
        ghost var before := View();
        ghost var acc := p[..n];
        PullsWanted(p.Length, pulls);
        FillTurn(before, p.Length, acc);
        var num := Next();
        SafeAfterPull(before, Wanted(p.Length) - pulls);
        pulls, laid := pulls + 1, laid + STRIDE;
        if num == [] {
          e := if err.Some? then err else Some(EOF);
          return;
        }
        n := Place(p, n, num);
        assert p[..n] == Placed(acc, num, p.Length);
      }
      e := err;
    }
  }

  /** One Next over a fresh formatter on `number`, and its error: the first eleven
      bytes formatted (any excess ignored), an error for one to ten bytes, and
      the empty result with no error for no bytes. */
  method FormatNumberString(number: seq<byte>) returns (out: seq<byte>, e: Option<Error>)
    requires WindowsAreDigits(number, 1)
    ensures |number| == 0 ==> out == [] && e.None?
    ensures 0 < |number| < WINDOW ==> out == [] && e == Some(UnexpectedEOF)
    ensures WINDOW <= |number| ==> out == Format(number[..WINDOW]) && e.None?
  {
    var nf := new NumberFormatter(Some(number));
    out := nf.Next();
    e := nf.Err();
  }

  /** FormatNumberString on the same bytes. */
  method FormatNumberBytes(number: seq<byte>) returns (out: seq<byte>, e: Option<Error>)
    requires WindowsAreDigits(number, 1)
    ensures |number| == 0 ==> out == [] && e.None?
    ensures 0 < |number| < WINDOW ==> out == [] && e == Some(UnexpectedEOF)
    ensures WINDOW <= |number| ==> out == Format(number[..WINDOW]) && e.None?
  {
    out, e := FormatNumberString(number);
  }

  /** Lines 217-220 of Read: copy the number into `p[at:]`, then a separator
      when at least two bytes of room remain after it. */
  method Place(p: array<byte>, at: nat, num: seq<byte>) returns (next: nat)
    requires at < p.Length && num != []
    modifies p
    ensures next == |Placed(old(p[..at]), num, p.Length)|
    ensures p[..next] == Placed(old(p[..at]), num, p.Length)
    ensures forall k :: next <= k < p.Length ==> p[k] == old(p[k])
  {
    ghost var acc := p[..at];
    var m := Copy(p, at, num);
    ghost var copied := acc + num[..m];
    assert p[..] == copied + old(p[at + m..]);
    next := at + m;
    if next >= WIDTH && next + 1 < p.Length {
      ghost var before := p[..];
      p[next] := NEWLINE;
      assert p[..] == before[next := NEWLINE];
      assert p[..] == copied + [NEWLINE] + old(p[next + 1..]);
      next := next + 1;
    }
  }

  /** Go's built-in copy into `dst[at:]`: as many bytes of `src` as fit. */
  method Copy(dst: array<byte>, at: nat, src: seq<byte>) returns (m: nat)
    requires at <= dst.Length
    modifies dst
    ensures m == Min(|src|, dst.Length - at)
    ensures dst[..] == old(dst[..at]) + src[..m] + old(dst[at + m..])
  {
    m := Min(|src|, dst.Length - at);
    forall j | 0 <= j < m {
      dst[at + j] := src[j];
    }
  }

  /** The "error" test, for any short source, any number and any short
      source with a non-digit: the short source latches a short read;
      swapping the source without Reset leaves it latched; Reset onto the
      number formats it; Reset onto the last source fails on the short read
      before any byte is inspected. */
  method ErrorThenReset(short: seq<byte>, d: seq<byte>, bad: seq<byte>)
    returns (first: Option<Error>, latched: Option<Error>, res: seq<byte>, cleared: Option<Error>, again: Option<Error>)
    requires 0 < |short| < WINDOW && |d| == WINDOW && AllDigits(d) && 0 < |bad| < WINDOW
    ensures first == Some(UnexpectedEOF) && latched == first
    ensures res == Format(d) && cleared.None?
    ensures again == Some(UnexpectedEOF)
  {
    var nf := new NumberFormatter(Some(short));
    var skipped := nf.Next();
    first := nf.Err();
    nf.src := Some(d);
    skipped := nf.Next();
    latched := nf.Err();
    nf.Reset(Some(d));
    assert d[..WINDOW] == d;
    res := nf.Next();
    cleared := nf.Err();
    nf.Reset(Some(bad));
    skipped := nf.Next();
    again := nf.Err();
  }

  /** The "reader" test: one number read into exactly seventeen bytes. */
  method ReaderExample(d: seq<byte>) returns (n: nat, e: Option<Error>, out: seq<byte>)
    requires |d| == WINDOW && AllDigits(d)
    ensures n == WIDTH && e.None? && out == Format(d)
  {
    var nf := new NumberFormatter(Some(d));
    DigitsAreSafe(nf.View(), Wanted(WIDTH));
    var p := new byte[WIDTH];
    ReadOne(d, WIDTH);
    ghost var r := ReadSpec(nf.View(), WIDTH);
    assert r.out == Format(d) && r.err.None?;
    n, e := nf.Read(p);
    out := p[..n];
  }

  /** The "writer" test: a chunk without digits is refused; eleven digits are
      taken and read back formatted; two more writes of them are read back as
      two numbers with one separator between them, with no error. */
  method WriterExample(letters: seq<byte>, d: seq<byte>)
    returns (refused: Option<Error>, taken: nat, once: seq<byte>, twice: seq<byte>, e: Option<Error>)
    requires letters != [] && forall i :: 0 <= i < |letters| ==> !IsDigit(letters[i])
    requires |d| == WINDOW && AllDigits(d)
    ensures refused == Some(UnexpectedEOF)
    ensures taken == WINDOW
    ensures once == Format(d)
    ensures twice == Format(d) + [NEWLINE] + Format(d) && e.None?
  {
    DigitsOfDigits(d);
    NoDigits(letters);
    var nf := new NumberFormatter(None);
    var k, err := nf.Write(letters);
    refused := err;
    taken, err := nf.Write(d);
    var p := new byte[WIDTH];
    DigitsAreSafe(nf.View(), Wanted(WIDTH));
    ReadOne(d, WIDTH);
    ghost var r := ReadSpec(nf.View(), WIDTH);
    assert r.out == Format(d) && r.rest == Feed([], None, false);
    k, err := nf.Read(p);
    once := p[..k];
    k, err := nf.Write(d);
    k, err := nf.Write(d);
    var q := new byte[WIDTH + STRIDE];
    assert nf.View() == Feed(d + d, None, false);
    DigitsAreSafe(nf.View(), Wanted(WIDTH + STRIDE));
    ReadTwo(d, d);
    k, e := nf.Read(q);
    twice := q[..k];
  }

  /** The "multiple" test: Next called until it returns "" on a source of
      digits yields the formatted windows, each seventeen bytes, and leaves
      the error unset exactly when the length is a multiple of eleven. */
  method Multiple(s: seq<byte>) returns (ns: seq<seq<byte>>, e: Option<Error>)
    requires AllDigits(s)
    ensures ns == AllNumbers(s) && Wide(ns)
    ensures e == TailError(s)
    ensures e.None? <==> |s| % WINDOW == 0
  {
    var nf := new NumberFormatter(Some(s));
    ns := [];
    var more := true;
    while more
      invariant nf.Valid() && !nf.closed && nf.src.Some?
      invariant more ==> nf.err.None? && |ns| <= |s| / WINDOW
      invariant more ==> nf.src.value == s[WINDOW * |ns|..] && ns == AllNumbers(s)[..|ns|]
      invariant !more ==> ns == AllNumbers(s) && nf.err == TailError(s)
      decreases more, |nf.src.value|
    {
      DigitsAreSafe(nf.View(), 1);
      if |ns| < |s| / WINDOW {
        PullWindow(s, |ns|);
        assert AllNumbers(s)[..|ns| + 1] == ns + [AllNumbers(s)[|ns|]];
      } else {
        PullTail(s);
        assert AllNumbers(s)[..|ns|] == AllNumbers(s);
      }
      var next := nf.Next();
      if next == [] {
        more := false;
      } else {
        ns := ns + [next];
      }
    }
    e := nf.Err();
  }

  /** After Close: Next returns "", Read reports the io.EOF that Close
      latched without writing, Write is refused with io.ErrClosedPipe, and a
      Reset does not reopen the formatter, so Next still returns "". */
  method AfterClose(source: seq<byte>, chunk: seq<byte>)
    returns (closing: Option<Error>, next: seq<byte>, n: nat, readErr: Option<Error>,
             written: nat, writeErr: Option<Error>, reopened: seq<byte>)
    requires chunk != []
    ensures closing.None? && next == []
    ensures n == 0 && readErr == Some(EOF)
    ensures written == 0 && writeErr == Some(ClosedPipe)
    ensures reopened == []
  {
    var nf := new NumberFormatter(Some(source));
    closing := nf.Close();
    next := nf.Next();
    var p := new byte[WIDTH];
    n, readErr := nf.Read(p);
    written, writeErr := nf.Write(chunk);
    nf.Reset(Some(source));
    reopened := nf.Next();
  }

  /** A Read into fewer than seventeen bytes is refused before any byte of
      the source is looked at, whatever the source holds. */
  method ShortBuffer(source: seq<byte>, size: nat) returns (n: nat, e: Option<Error>, left: seq<byte>)
    requires size < WIDTH
    ensures n == 0 && e == Some(InvalidBufferSize) && left == source
  {
    var nf := new NumberFormatter(Some(source));
    var p := new byte[size];
    n, e := nf.Read(p);
    left := nf.Input();
  }
}
