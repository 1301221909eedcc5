# didfmt NumberFormatter in Dafny

A model of `NumberFormatter` from `numbers.go`, the formatter at the core of
didfmt. The formatter turns runs of eleven ASCII digits into the seventeen
bytes `+D (DDD) DDD-DDDD`. It reads digits from an external source, or from
an internal buffer that `Write` fills, keeps the first read error latched
until `Reset`, and refuses work once closed. The project has three modules:

- `Template` (`template.dfy`) holds the layout.
  - `Format` is the pure definition of one formatted number, and `Unformat` is its inverse.
  - `FormatWindow` is the imperative transform loop of `Next`, proved to fill its array with `Format(d)`.
  - `Digits` is the digit filter of `Write`.
- `Stream` (`stream.dfy`) describes the state the read path depends on as a `Feed` value: the bytes left in the active input, the latched error and the closed flag. Over it:
  - `Pull` is one call of `Next`, and `Drain` is several calls in a row.
  - `Fill` and `ReadSpec` are one call of `Read`.
  - The lemmas state what these promise: the numbers each call returns, the byte layout of `Read`'s output, and the error left behind.
- `Numbers` (`numbers.dfy`) holds the class `NumberFormatter`.
  - The fields are `src`, `err`, `buf` and `closed`.
  - Its methods update the fields as the Go methods do, and each is proved against the functions of `Stream`.
  - The module also holds the two one-shot wrappers and, as client methods, the scenarios of `numbers_test.go`.

Modelling choices:

- A source is the sequence of bytes it still holds (`Option<seq<byte>>`, with `None` for a nil source). Go strings are byte sequences.
- `io.ReadFull` into eleven bytes has three outcomes.
  - No bytes left: `""`, and no error is latched.
  - One to ten bytes: those bytes are consumed and `io.ErrUnexpectedEOF` is latched. `errors.Is` does not equate it with `io.EOF`.
  - Eleven bytes: the window is formatted.
- A non-digit inside a full window makes the Go code panic. The model makes this a precondition instead: `Safe(View(), k)` says the next `k` full windows are digits. A `Read` into at least 17 bytes pulls at most `Wanted(cap) = cap / 18 + 1` windows, so it requires that many. A `Read` into fewer bytes is refused before any pull, so it requires nothing of the input.
- `Close` sets the buffer to nil. A later `Write` first calls `Len()` on that nil buffer (numbers.go:154) and only then checks `closed`, and a later `Reset` calls `MustReset()` on it. What the foreign buffer type does when nil is unknown, so the model treats the buffer after `Close` as empty: `Write` reads length 0 and is refused, and `Reset` leaves it empty with `closed` still set.
- `Read`'s layout is modelled as written, including the case where the last byte of the buffer receives the next number's `'+'` in place of a separator. Number `j` occupies offsets `18j` to `18j+16`. A `'\n'` follows a number only when at least two bytes of room remain after it. When the last free byte sits where a separator would go, it receives the `'+'` of the next number, and the rest of that number is consumed and lost. `LaidAt` states this layout offset by offset.

## Model

| member | source | states |
|---|---|---|
| Template.FormatWindow | numbers.go:106-142 | Filling a fresh 17-byte array from an all-digit 11-byte window yields exactly `Format` of the window |
| Template.FormatSpelled | numbers.go:111-142 | The formatted number is `'+'`, digit 0, `" ("`, digits 1-3, `") "`, digits 4-6, `'-'`, digits 7-10 |
| Template.FormatLayout | numbers.go:111-142 | The literals `+ ( ) -` and the two spaces sit at offsets 0, 2, 3, 7, 8, 12, and digit `i` sits at `Slot(i)` |
| Template.UnformatFormat | numbers.go:111-142 | Reading the digits back from their slots recovers the window, so formatting loses nothing |
| Template.FormatUnformat | numbers.go:111-142 | Every 17-byte sequence carrying the template's literals is the formatting of exactly one window |
| Template.FormatHasNoNewline | numbers.go:111-142 | A formatted all-digit window contains no `'\n'`, so Read's separators are unambiguous |
| Template.FormatExample | numbers_test.go:15-18 | `"12813308004"` is eleven digits and formats to `"+1 (281) 330-8004"` |
| Template.DigitsAreDigits | numbers.go:174-181 | Write's filter lets only bytes in `'0'..'9'` through |
| Template.DigitsOfDigits | numbers.go:174-181 | On an all-digit chunk the filter is the identity |
| Template.NoDigits | numbers.go:174-181 | A chunk with no digit contributes nothing |
| Template.DigitsConcat | numbers.go:174-181 | Filtering two chunks in turn equals filtering their concatenation |
| Template.DigitsCount | numbers.go:174-181 | Each digit value survives as many times as it occurs, each non-digit value never |
| Stream.Pull | numbers.go:68-104 | One Next: closed or latched gives `""` and leaves the feed alone; the result is `""` or 17 bytes; the input never grows and `closed` is kept |
| Stream.AllNumbers | numbers.go:84-147 | The numbers of an input are one 17-byte string per full window |
| Stream.NumbersAt | numbers.go:84-147 | Number `j` is the formatting of bytes `11j .. 11j+10` |
| Stream.PullWindow | numbers.go:84-147 | On a fresh input, the pull after `j` full windows returns number `j` and consumes exactly eleven bytes |
| Stream.PullTail | numbers.go:89-102 | After the last full window the pull returns `""`, uses up the remainder, and latches a short read exactly when one is left |
| Stream.DrainNumbers | numbers.go:84-147 | While full windows remain, `k` pulls return the first `k` numbers and consume `11k` bytes |
| Stream.DrainSplit | numbers.go:68-149 | `a + b` pulls are `a` pulls followed by `b` pulls |
| Stream.DrainFixed | numbers.go:70-78 | A pull that returns `""` without changing anything repeats forever |
| Stream.DrainTail | numbers.go:89-102 | With fewer than eleven bytes left, every further pull returns `""`; the input is used up; a short read is latched exactly when bytes were left |
| Stream.DrainToEnd | numbers.go:84-102 | On any input `s`, `|s|/11 + 1 + extra` pulls: the first `|s|/11` return the numbers and all later ones `""`; `Err()` is nil exactly when the length is a multiple of eleven |
| Stream.Latched | numbers.go:75-78 | With a latched error every pull returns `""` and reads nothing, whatever the source now holds |
| Stream.Placed | numbers.go:217-220 | One turn writes more than nothing and stays in the buffer, keeps what was written, and advances by a stride of 18 unless the buffer ends |
| Stream.Fill | numbers.go:205-222 | Read's loop never shrinks what was written, never writes past the buffer, and preserves `closed` |
| Stream.ReadSpec | numbers.go:198-223 | A latched error returns `(0, err)` and reads nothing; a buffer shorter than 17 is refused and reads nothing; never more than `cap` bytes |
| Stream.LaidExtend | numbers.go:217-220 | A valid layout stays valid when more numbers follow |
| Stream.LaidNumber | numbers.go:217 | Copying the next number, whole or cut, after complete strides keeps the layout |
| Stream.LaidNewline | numbers.go:218-220 | A separator after a number with two bytes of room keeps the layout |
| Stream.LaidGlued | numbers.go:217-220 | With one byte of room after a number, the next number's first byte fills it |
| Stream.FillAtEnd | numbers.go:209-215 | Without a full window left, the loop stops: io.EOF at a boundary, the latched short read otherwise |
| Stream.FillLastByte | numbers.go:209-220 | With one byte of room left, one more pull fills it or ends the call |
| Stream.FillGlued | numbers.go:209-220 | A number ending one byte before the end gets no separator; the next number's `'+'` takes the last byte |
| Stream.FillCut | numbers.go:217 | A number that does not fit is cut at the end of the buffer and the call returns no error |
| Stream.FillLayout | numbers.go:205-222 | From any stride boundary, Read delivers the layout of every number it pulls. With enough input it fills the buffer with no error and consumes exactly the pulled windows; otherwise it writes everything, uses up the input and returns io.EOF or the latched short read |
| Stream.ReadLayout | numbers.go:198-223 | The same, for one whole Read on a healthy formatter |
| Stream.ReadOne | numbers_test.go:108-122 | One number into 17 bytes gives the number with nil error; into more room, the number, `'\n'` if two bytes remain, and io.EOF |
| Stream.ReadTwo | numbers_test.go:167-176 | Two numbers into 35 bytes give `A + "\n" + B` with nil error and consume the input |
| Stream.ReadSeparators | numbers.go:218-220 | Output byte `k` is `'\n'` exactly when `k` ends a stride and at least two bytes of room remain from `k` |
| Stream.NumberHasNoNewline | numbers.go:111-142 | No number Read pulls contains `'\n'` |
| Stream.ReadWhenClosed | numbers.go:70-73 | Closed: Next returns `""`, Read writes nothing and returns the latched io.EOF, or io.EOF |
| Stream.SafeAfterPull | numbers.go:112-120 | Digits in the next `k` windows leave digits in the next `k - 1` after a pull |
| Stream.SafeWindow | numbers.go:112-120 | The window Next formats holds only digits, so the panic is never reached |
| Stream.DigitsAreSafe | numbers.go:174-181 | An input of digits, such as the buffer Write fills, never reaches the panic |
| Numbers.NumberFormatter.constructor | numbers.go:31-37 | A new formatter has the given source, no error, an empty buffer, and is open |
| Numbers.NumberFormatter.Reset | numbers.go:39-47 | Sets the source, clears the error, empties the buffer, leaves `closed` unchanged |
| Numbers.NumberFormatter.Close | numbers.go:49-65 | Sets `closed`, latches io.EOF, drops source and buffer, returns nil |
| Numbers.NumberFormatter.Next | numbers.go:67-149 | The returned number and the new state are exactly `Pull` of the old state; the buffer is not touched while a source is bound |
| Numbers.NumberFormatter.Write | numbers.go:151-194 | Empty `p`: ShortWrite. Closed: ClosedPipe. Otherwise appends exactly the digits of `p` in order and returns their count, or 0 and UnexpectedEOF when the buffer is still empty. Never consults the latched error |
| Numbers.NumberFormatter.Read | numbers.go:196-223 | Writes exactly `ReadSpec`'s output into `p[:n]`, returns its error, leaves `p[n:]` untouched, and leaves the state `ReadSpec` describes |
| Numbers.Place | numbers.go:217-220 | One turn writes `Placed` into the array after what was written, and nothing further |
| Numbers.Copy | numbers.go:217 | Go's `copy` into `p[at:]` writes `min(len(src), len(p)-at)` bytes and nothing else |
| Numbers.FormatNumberString | numbers.go:230-234 | Formats the first eleven bytes and ignores the rest; `("", short read)` for 1-10 bytes; `("", nil)` for none |
| Numbers.FormatNumberBytes | numbers.go:236-239 | The same as FormatNumberString on the same bytes |
| Numbers.ErrorThenReset | numbers_test.go:65-89 | A short source latches an error; a swapped source without Reset stays latched; Reset formats the new number; a short source with a letter fails again |
| Numbers.ReaderExample | numbers_test.go:108-122 | Read into 17 bytes of a one-number source returns 17, nil and the formatted number |
| Numbers.WriterExample | numbers_test.go:123-177 | Letters alone are refused; 11 digits written give 11 and read back formatted; two more writes read back as `A\nA` into 35 bytes with nil error |
| Numbers.Multiple | numbers_test.go:45-64 | Calling Next until `""` yields every 17-byte number of the source; `Err()` is nil exactly when the length is a multiple of eleven |
| Numbers.AfterClose | numbers.go:50-73 | After Close: Next is `""`, Read is `(0, io.EOF)`, Write is `(0, ErrClosedPipe)`, and Reset does not reopen |
| Numbers.ShortBuffer | numbers.go:198-204 | A Read into fewer than 17 bytes returns `(0, invalid buffer size)` and reads nothing, whatever the source holds, letters included |

## Left out

- The `sync.Mutex` in the struct and its Lock/Unlock calls. Operations are modelled one at a time, so concurrency is not represented.
- The pools (`BufferPool`, `PhoneNumberPool`, `FormattedPhoneNumberPool`): they only reuse allocations and have no observable effect. Fresh arrays are used instead.
- The internals of the foreign `pool.Buffer`: it is modelled as a FIFO byte sequence. Its behaviour once `Close` has set it to nil is not modelled; the buffer is treated as empty.
- Arbitrary `io.Reader` sources, and read errors other than end of input: a source is a finite byte sequence.
- The `n != 11` branch of Next: `io.ReadFull` never returns fewer than eleven bytes without an error, so the branch is unreachable.
- The `io.Closer` branch of Close: the source is dropped before the check, so the branch never runs and the source is never closed.
- The `unicode.IsNumber` test in Write: for a single byte the `'0'..'9'` range test decides alone.
- The text of error messages: errors are kinds.
- The difference between `cap(p)` and `len(p)` in Read: both are the array length.
- The panic on a non-digit in a window is not modelled as a run-time failure. It is a precondition (`Safe`) of Next, Read and the wrappers.
- The bytes of a partial window are modelled as consumed. Once the short read is latched nothing reads them until Reset replaces the input.
- `Err` is modelled as a plain accessor and has no contract of its own.
- The benchmark machinery of `numbers_test.go` is not modelled.
- The "ridiculous" mixed-text chunk of the writer test is not evaluated literally. Its behaviour follows from `Template.DigitsConcat`, `Template.DigitsCount` and `Stream.ReadTwo`.
- The test scenarios are stated for any number, any digit-free chunk and any short source. The concrete strings of the tests are tied in only through `Template.FormatExample`.
