/** The freestanding formatter of src/utils/libc.c: a bounded output buffer,
    decimal and hexadecimal conversion, directive handling, `vsnprintf`,
    `memset` and `strlen`. Characters are C bytes, held as `char` values. */
module Libc {
  import opened Common

  const NUL: char := '\0'

  function Min(a: int, b: int): int { if a <= b then a else b }

  /** Length of the C string `s`: the number of characters before its first NUL. */
  function CLen(s: seq<char>): (r: nat)
    requires NUL in s
    ensures r < |s| && s[r] == NUL
    ensures forall i :: 0 <= i < r ==> s[i] != NUL
  {
    if s[0] == NUL then 0 else 1 + CLen(s[1..])
  }

  function Reverse(s: seq<char>): (r: seq<char>)
    ensures |r| == |s|
  {
    if s == [] then [] else Reverse(s[1..]) + [s[0]]
  }

  lemma {:induction false} ReverseAt(s: seq<char>, k: nat)
    requires k < |s|
    ensures Reverse(s)[k] == s[|s| - 1 - k]
  {
    if k < |s| - 1 {
      ReverseAt(s[1..], k);
    }
  }

  // ---------------------------------------------------------------------------
  // Digit strings

  function DecDigit(d: nat): (c: char)
    requires d < 10
    ensures '0' <= c <= '9'
  {
    (d + 48) as char
  }

  /** Upper-case hexadecimal digit, as the `c < 0xA ? '0' : 'A' - 0xA` offset gives it. */
  function HexDigit(d: nat): (c: char)
    requires d < 16
    ensures ('0' <= c <= '9') || ('A' <= c <= 'F')
  {
    if d < 10 then (d + 48) as char else (d - 10 + 65) as char
  }

  /** Decimal digits of n, least significant first (none for zero). */
  function DecLsf(n: nat): seq<char>
  {
    if n == 0 then [] else [DecDigit(n % 10)] + DecLsf(n / 10)
  }

  /** Hexadecimal digits of n, least significant first (none for zero). */
  function HexLsf(n: nat): seq<char>
  {
    if n == 0 then [] else [HexDigit(n % 16)] + HexLsf(n / 16)
  }

  /** What buf_putu prints. */
  function Decimal(n: nat): seq<char>
  {
    if n == 0 then ['0'] else Reverse(DecLsf(n))
  }

  /** What buf_putd prints. */
  function SignedDecimal(n: int): seq<char>
  {
    if n < 0 then ['-'] + Decimal(-n) else Decimal(n)
  }

  /** `s` followed by '0' characters up to length `w`. */
  function PadZeros(s: seq<char>, w: nat): (r: seq<char>)
    ensures |r| == if |s| < w then w else |s|
    decreases w - |s|
  {
    if |s| < w then PadZeros(s + ['0'], w) else s
  }

  /** What buf_putx prints. */
  function Hex(n: nat): seq<char>
  {
    if n == 0 then ['0'] else Reverse(PadZeros(HexLsf(n), 8))
  }

  function DigitValue(c: char): nat
  {
    if '0' <= c <= '9' then c as int - 48
    else if 'A' <= c <= 'F' then c as int - 55
    else 0
  }

  /** Value of a digit string written most significant first. */
  function MsfValue(s: seq<char>, base: nat): nat
  {
    if s == [] then 0 else MsfValue(s[..|s| - 1], base) * base + DigitValue(s[|s| - 1])
  }

  /** Value of a digit string written least significant first. */
  function LsfValue(s: seq<char>, base: nat): nat
  {
    if s == [] then 0 else DigitValue(s[0]) + base * LsfValue(s[1..], base)
  }

  lemma {:induction false} MsfOfReverse(s: seq<char>, base: nat)
    ensures MsfValue(Reverse(s), base) == LsfValue(s, base)
  {
    if s != [] {
      var r := Reverse(s);
      assert r[..|r| - 1] == Reverse(s[1..]);
      MsfOfReverse(s[1..], base);
    }
  }

  lemma {:induction false} DecLsfValue(n: nat)
    ensures LsfValue(DecLsf(n), 10) == n
    ensures forall i :: 0 <= i < |DecLsf(n)| ==> '0' <= DecLsf(n)[i] <= '9'
  {
    if n != 0 {
      DecLsfValue(n / 10);
    }
  }

  lemma {:induction false} HexLsfValue(n: nat)
    ensures LsfValue(HexLsf(n), 16) == n
    ensures forall i :: 0 <= i < |HexLsf(n)| ==>
      ('0' <= HexLsf(n)[i] <= '9') || ('A' <= HexLsf(n)[i] <= 'F')
  {
    if n != 0 {
      HexLsfValue(n / 16);
    }
  }

  lemma {:induction false} PadZerosValue(s: seq<char>, w: nat, base: nat)
    ensures LsfValue(PadZeros(s, w), base) == LsfValue(s, base)
    ensures PadZeros(s, w)[..|s|] == s
    ensures forall i :: |s| <= i < |PadZeros(s, w)| ==> PadZeros(s, w)[i] == '0'
    decreases w - |s|
  {
    if |s| < w {
      PadZerosValue(s + ['0'], w, base);
      LsfAppendZero(s, base);
      assert (s + ['0'])[..|s|] == s;
    }
  }

  lemma {:induction false} LsfAppendZero(s: seq<char>, base: nat)
    ensures LsfValue(s + ['0'], base) == LsfValue(s, base)
  {
    if s != [] {
      assert (s + ['0'])[1..] == s[1..] + ['0'];
      LsfAppendZero(s[1..], base);
    }
  }

  lemma {:induction false} DecLsfLength(n: nat, k: nat, p: nat)
    requires p == Pow(10, k) && n < p
    ensures |DecLsf(n)| <= k
  {
    if n != 0 {
      assert Pow(10, 0) == 1;
      DecLsfLength(n / 10, k - 1, Pow(10, k - 1));
    }
  }

  lemma {:induction false} HexLsfLength(n: nat, k: nat, p: nat)
    requires p == Pow(16, k) && n < p
    ensures |HexLsf(n)| <= k
  {
    if n != 0 {
      assert Pow(16, 0) == 1;
      HexLsfLength(n / 16, k - 1, Pow(16, k - 1));
    }
  }

  function Pow(b: nat, k: nat): nat
  {
    if k == 0 then 1 else b * Pow(b, k - 1)
  }

  /** buf_putu prints "0" for zero, else the decimal digits most significant
      first without a leading zero, and the digits read back as n. */
  lemma DecimalCorrect(n: nat)
    ensures MsfValue(Decimal(n), 10) == n
    ensures forall i :: 0 <= i < |Decimal(n)| ==> '0' <= Decimal(n)[i] <= '9'
    ensures n == 0 <==> Decimal(n) == ['0']
    ensures n > 0 ==> Decimal(n)[0] != '0'
    ensures |Decimal(n)| > 0
  {
    if n != 0 {
      var d := DecLsf(n);
      DecLsfValue(n);
      MsfOfReverse(d, 10);
      forall i | 0 <= i < |d| ensures '0' <= Reverse(d)[i] <= '9' {
        ReverseAt(d, i);
      }
      LastDecDigitNonZero(n);
      ReverseAt(d, 0);
      assert Decimal(n)[0] == d[|d| - 1];
    }
  }

  lemma {:induction false} LastDecDigitNonZero(n: nat)
    requires n > 0
    ensures |DecLsf(n)| > 0 && DecLsf(n)[|DecLsf(n)| - 1] != '0'
  {
    if n / 10 > 0 {
      LastDecDigitNonZero(n / 10);
    }
  }

  /** buf_putx prints upper-case digits, at least 8 of them (zero-padded on
      the left) for a non-zero value, a single "0" for zero, and the digits
      read back as n. */
  lemma HexCorrect(n: nat)
    ensures MsfValue(Hex(n), 16) == n
    ensures forall i :: 0 <= i < |Hex(n)| ==> ('0' <= Hex(n)[i] <= '9') || ('A' <= Hex(n)[i] <= 'F')
    ensures n == 0 <==> Hex(n) == ['0']
    ensures n > 0 ==> |Hex(n)| >= 8
    ensures 0 < n < 0x1_0000_0000 ==> |Hex(n)| == 8
  {
    if n != 0 {
      var d := HexLsf(n);
      var p := PadZeros(d, 8);
      HexLsfValue(n);
      PadZerosValue(d, 8, 16);
      MsfOfReverse(p, 16);
      forall i | 0 <= i < |p| ensures ('0' <= Reverse(p)[i] <= '9') || ('A' <= Reverse(p)[i] <= 'F') {
        ReverseAt(p, i);
        var j := |p| - 1 - i;
        if j < |d| {
          assert p[j] == d[j];
        }
      }
      if n < 0x1_0000_0000 {
        HexLsfLength(n, 8, Pow(16, 8));
      }
    }
  }

  /** buf_putd prints '-' and the magnitude for a negative value, plain digits otherwise. */
  lemma SignedDecimalCorrect(n: int)
    ensures n < 0 ==> SignedDecimal(n)[0] == '-' && MsfValue(SignedDecimal(n)[1..], 10) == -n
    ensures n >= 0 ==> MsfValue(SignedDecimal(n), 10) == n && SignedDecimal(n)[0] != '-'
  {
    var m := if n < 0 then -n else n;
    var d := Decimal(m);
    DecimalCorrect(m);
    assert '0' <= d[0] <= '9';
    if n < 0 {
      assert SignedDecimal(n) == ['-'] + d;
      assert SignedDecimal(n)[1..] == d;
    } else {
      assert SignedDecimal(n) == d;
    }
  }

  // ---------------------------------------------------------------------------
  // Format strings

  /** One variadic argument: a 32-bit word (read as i32 by %d/%i/%c and as u32
      by %u/%x) or a C string (for %s). */
  datatype Arg = Word(w: u32) | Str(s: seq<char>)

  /** The conversions process_fmt takes an argument for. */
  predicate IsConversion(c: char)
  {
    c == 'd' || c == 'i' || c == 'u' || c == 'x' || c == 'c' || c == 's'
  }

  /** The arguments fit the directives of `fmt` from index i on: each
      directive finds an argument of its kind, strings are NUL-terminated, and
      there is no %f (floats are not modelled). */
  predicate Conforms(fmt: seq<char>, i: nat, args: seq<Arg>, ai: nat)
    decreases |fmt| - i
  {
    if i >= |fmt| || fmt[i] == NUL then true
    else if fmt[i] != '%' then Conforms(fmt, i + 1, args, ai)
    else if i + 1 >= |fmt| || fmt[i + 1] == NUL then true
    else
      var c := fmt[i + 1];
      if IsConversion(c) && c != 's' then
        ai < |args| && args[ai].Word? && Conforms(fmt, i + 2, args, ai + 1)
      else if c == 's' then
        ai < |args| && args[ai].Str? && NUL in args[ai].s && Conforms(fmt, i + 2, args, ai + 1)
      else if c == 'f' then false
      else Conforms(fmt, i + 2, args, ai)
  }

  /** The text one directive `c` produces from its argument. */
  function Directive(c: char, a: Arg): seq<char>
    requires IsConversion(c)
    requires c == 's' ==> a.Str? && NUL in a.s
    requires c != 's' ==> a.Word?
  {
    match c
    case 'd' => SignedDecimal(ToI32(a.w))
    case 'i' => SignedDecimal(ToI32(a.w))
    case 'u' => Decimal(a.w)
    case 'x' => Hex(a.w)
    case 'c' => [(a.w % 0x100) as char]
    case 's' => a.s[..CLen(a.s)]
  }

  /** The full text process_fmt produces for `fmt` from index i on. A lone
      '%' just before the terminator prints '%' and ends the text (corrected
      behaviour, see LastReadAsWritten). */
  function FormatFrom(fmt: seq<char>, i: nat, args: seq<Arg>, ai: nat): seq<char>
    requires i < |fmt| && NUL in fmt[i..]
    requires Conforms(fmt, i, args, ai)
    decreases |fmt| - i
  {
    if fmt[i] == NUL then []
    else if fmt[i] != '%' then [fmt[i]] + FormatFrom(fmt, i + 1, args, ai)
    else if fmt[i + 1] == NUL then ['%']
    else
      var c := fmt[i + 1];
      if IsConversion(c) then Directive(c, args[ai]) + FormatFrom(fmt, i + 2, args, ai + 1)
      else if c == '%' then ['%'] + FormatFrom(fmt, i + 2, args, ai)
      else ['%', c] + FormatFrom(fmt, i + 2, args, ai)
  }

  function Format(fmt: seq<char>, args: seq<Arg>): seq<char>
    requires NUL in fmt && Conforms(fmt, 0, args, 0)
  {
    assert fmt[0..] == fmt;
    FormatFrom(fmt, 0, args, 0)
  }

  /** Ordinary characters are copied verbatim; "%%" gives one '%'; an
      unknown directive gives '%' followed by its character. */
  lemma FormatPlainAndUnknown(fmt: seq<char>, i: nat, args: seq<Arg>, ai: nat)
    requires i < |fmt| && NUL in fmt[i..] && Conforms(fmt, i, args, ai) && fmt[i] != NUL
    ensures fmt[i] != '%' ==> FormatFrom(fmt, i, args, ai) == [fmt[i]] + FormatFrom(fmt, i + 1, args, ai)
    ensures fmt[i] == '%' && fmt[i + 1] == '%' ==>
      FormatFrom(fmt, i, args, ai) == ['%'] + FormatFrom(fmt, i + 2, args, ai)
    ensures fmt[i] == '%' && fmt[i + 1] != NUL && !IsConversion(fmt[i + 1]) && fmt[i + 1] != 'f' && fmt[i + 1] != '%' ==>
      FormatFrom(fmt, i, args, ai) == ['%', fmt[i + 1]] + FormatFrom(fmt, i + 2, args, ai)
  {
    if fmt[i] == '%' {
      assert fmt[i + 1..] == fmt[i..][1..];
      assert NUL in fmt[i + 1..];
      if fmt[i + 1] != NUL {
        assert fmt[i + 2..] == fmt[i + 1..][1..];
      }
    } else {
      assert fmt[i + 1..] == fmt[i..][1..];
    }
  }

  /** A format string with no '%' before its terminator at j is printed as itself. */
  lemma {:induction false} FormatVerbatim(fmt: seq<char>, i: nat, j: nat, args: seq<Arg>, ai: nat)
    requires i <= j < |fmt| && fmt[j] == NUL
    requires forall k :: i <= k < j ==> fmt[k] != NUL && fmt[k] != '%'
    ensures NUL in fmt[i..] && Conforms(fmt, i, args, ai)
    ensures FormatFrom(fmt, i, args, ai) == fmt[i..j]
    decreases j - i
  {
    assert fmt[i..][j - i] == NUL;
    if i < j {
      FormatVerbatim(fmt, i + 1, j, args, ai);
      StepPlain(fmt, i, args, ai);
      assert fmt[i..j] == [fmt[i]] + fmt[i + 1..j];
    }
  }

  // ---------------------------------------------------------------------------
  // The scanning defect at a lone trailing '%'

  /** The highest index process_fmt as written reads while scanning from index
      i: after a '%' it reads the next character as the directive and resumes
      two characters on, whatever that character was. An index equal to |fmt|
      is a read past the end of the string. */
  function LastReadAsWritten(fmt: seq<char>, i: nat): nat
    decreases |fmt| - i
  {
    if i >= |fmt| then i
    else if fmt[i] == NUL then i
    else if fmt[i] != '%' then LastReadAsWritten(fmt, i + 1)
    else if i + 1 >= |fmt| then i + 1
    else LastReadAsWritten(fmt, i + 2)
  }

  /** For the format "%" the scan reads index 2, beyond the terminator at index 1. */
  lemma LoneTrailingPercentOverreads()
    ensures var fmt := ['%', NUL];
      CLen(fmt) == 1 && LastReadAsWritten(fmt, 0) == 2 && LastReadAsWritten(fmt, 0) >= |fmt|
  {
    var fmt := ['%', NUL];
    assert LastReadAsWritten(fmt, 0) == LastReadAsWritten(fmt, 2);
  }

  /** The corrected scan: a '%' whose next character is the terminator stops there. */
  function LastReadCorrected(fmt: seq<char>, i: nat): nat
    decreases |fmt| - i
  {
    if i >= |fmt| then i
    else if fmt[i] == NUL then i
    else if fmt[i] != '%' then LastReadCorrected(fmt, i + 1)
    else if i + 1 >= |fmt| then i + 1
    else if fmt[i + 1] == NUL then i + 1
    else LastReadCorrected(fmt, i + 2)
  }

  /** The corrected scan of a C string never reads past its terminator. */
  lemma {:induction false} CorrectedScanStopsAtTerminator(fmt: seq<char>, i: nat)
    requires i < |fmt| && NUL in fmt[i..]
    ensures LastReadCorrected(fmt, i) == i + CLen(fmt[i..])
    decreases |fmt| - i
  {
    if fmt[i] != NUL {
      assert fmt[i + 1..] == fmt[i..][1..];
      if fmt[i] != '%' {
        CorrectedScanStopsAtTerminator(fmt, i + 1);
      } else if fmt[i + 1] != NUL {
        assert fmt[i + 2..] == fmt[i + 1..][1..];
        CorrectedScanStopsAtTerminator(fmt, i + 2);
      }
    }
  }

  // ---------------------------------------------------------------------------
  // The output buffer (struct printf_buf)

  class PrintfBuf {
    var end: nat
    const len: nat
    const fd: int
    const buf: array<char>
    /** Everything handed to platform_write when the buffer filled up. */
    var flushed: seq<char>
    /** Every character passed to buf_putc, kept or not. */
    ghost var emitted: seq<char>
    /** The buffer contents before the first character was put. */
    ghost const orig: seq<char>

    /** With fd < 0 (vsnprintf) the buffer keeps the first `len` characters
        and drops the rest; with fd >= 0 nothing is lost: what was flushed
        followed by the buffered part is everything emitted. */
    ghost predicate Valid()
      reads this, buf
    {
      && len <= buf.Length && end <= len && |orig| == buf.Length
      && (fd < 0 ==>
            end == Min(|emitted|, len) && buf[..end] == emitted[..end]
            && buf[end..] == orig[end..] && flushed == [])
      && (fd >= 0 ==> 0 < len && flushed + buf[..end] == emitted)
    }

    constructor (b: array<char>, l: nat, d: int)
      requires l <= b.Length && (d >= 0 ==> 0 < l)
      ensures Valid() && buf == b && len == l && fd == d
      ensures end == 0 && emitted == [] && flushed == [] && orig == b[..]
    {
      buf, len, fd := b, l, d;
      end := 0;
      flushed := [];
      emitted := [];
      orig := b[..];
    }

    /** buf_putc: store c at `end`; when the buffer is full, drop c (fd < 0)
        or flush the whole buffer and start over (fd >= 0). */
    method Putc(c: char)
      requires Valid()
      modifies this, buf
      ensures Valid() && emitted == old(emitted) + [c]
      ensures fd < 0 ==> end == Min(old(end) + 1, len)
      ensures fd >= 0 && old(end) >= len ==> flushed == old(flushed) + old(buf[..len]) && end == 1
      ensures fd >= 0 && old(end) < len ==> flushed == old(flushed) && end == old(end) + 1
    {
      if end >= len {
        if fd < 0 {
          emitted := emitted + [c];
          assert buf[..end] == emitted[..end];
          return;
        }
        flushed := flushed + buf[..len];
        end := 0;
      }
      ghost var before := buf[..];
      buf[end] := c;
      end := end + 1;
      emitted := emitted + [c];
      assert buf[..end] == before[..end - 1] + [c];
      assert buf[end..] == before[end..];
    }

    /** buf_putr: put tmp[l-1], ..., tmp[0]. */
    method Putr(tmp: array<char>, l: nat)
      requires Valid() && tmp != buf && l <= tmp.Length
      modifies this, buf
      ensures Valid() && emitted == old(emitted) + Reverse(tmp[..l])
    {
      var k := l;
      while k > 0
        invariant 0 <= k <= l
        invariant Valid()
        invariant emitted == old(emitted) + Reverse(tmp[k..l])
      {
        Putc(tmp[k - 1]);
        assert tmp[k - 1..l] == [tmp[k - 1]] + tmp[k..l];
        k := k - 1;
      }
      assert tmp[0..l] == tmp[..l];
    }

    /** buf_puts: put the characters of the C string s before its terminator. */
    method Puts(s: seq<char>)
      requires Valid() && NUL in s
      modifies this, buf
      ensures Valid() && emitted == old(emitted) + s[..CLen(s)]
    {
      var i := 0;
      while s[i] != NUL
        invariant i <= CLen(s)
        invariant Valid() && emitted == old(emitted) + s[..i]
        decreases CLen(s) - i
      {
        Putc(s[i]);
        assert s[..i + 1] == s[..i] + [s[i]];
        i := i + 1;
      }
    }

    /** buf_putu. */
    method Putu(n: u32)
      requires Valid()
      modifies this, buf
      ensures Valid() && emitted == old(emitted) + Decimal(n)
    {
      if n == 0 {
        Putc('0');
        return;
      }
      var tmp := new char[32];
      var l := ConvertU32ToStr(n, tmp, 32);
      DecLsfLength(n, 10, Pow(10, 10));
      assert tmp[..l] == DecLsf(n);
      Putr(tmp, l);
    }

    /** buf_putd: a '-' and the magnitude for a negative n. For i32's minimum
        the magnitude 2^31 is also what the C negation gives once converted to u32. */
    method Putd(n: i32)
      requires Valid()
      modifies this, buf
      ensures Valid() && emitted == old(emitted) + SignedDecimal(n)
    {
      if n < 0 {
        var m: u32 := -(n as int);
        ghost var e0 := emitted;
        Putc('-');
        Putu(m);
        assert emitted == (e0 + ['-']) + Decimal(m);
        Assoc(e0, ['-'], Decimal(m));
        assert emitted == e0 + (['-'] + Decimal(m));
        assert SignedDecimal(n) == ['-'] + Decimal(m);
        assert Valid();
      } else {
        Putu(n);
      }
    }

    /** buf_putx. */
    method Putx(n: u32)
      requires Valid()
      modifies this, buf
      ensures Valid() && emitted == old(emitted) + Hex(n)
    {
      if n == 0 {
        Putc('0');
        return;
      }
      var tmp := new char[32];
      var l := HexToStr(n, tmp);
      Putr(tmp, l);
    }

    /** One conversion of process_fmt's switch: %d/%i, %u, %x, %s or %c. */
    method PutDirective(c: char, a: Arg)
      requires Valid()
      requires IsConversion(c)
      requires c == 's' ==> a.Str? && NUL in a.s
      requires c != 's' ==> a.Word?
      modifies this, buf
      ensures Valid() && emitted == old(emitted) + Directive(c, a)
    {
      if c == 'i' || c == 'd' {
        Putd(ToI32(a.w));
      } else if c == 'u' {
        Putu(a.w);
      } else if c == 'x' {
        Putx(a.w);
      } else if c == 's' {
        Puts(a.s);
      } else {
        Putc((a.w % 0x100) as char);
      }
    }

    /** process_fmt, with the corrected handling of a lone trailing '%'. */
    method ProcessFmt(fmt: seq<char>, args: seq<Arg>)
      requires Valid() && NUL in fmt && Conforms(fmt, 0, args, 0)
      modifies this, buf
      ensures Valid() && emitted == old(emitted) + Format(fmt, args)
    {
      var i, ai := 0, 0;
      assert fmt[0..] == fmt;
      ghost var total := old(emitted) + Format(fmt, args);
      while fmt[i] != NUL
        invariant i < |fmt| && NUL in fmt[i..] && Conforms(fmt, i, args, ai)
        invariant Valid() && emitted + FormatFrom(fmt, i, args, ai) == total
        decreases |fmt| - i
      {
        var done;
        i, ai, done := PutStep(fmt, i, args, ai);
        if done {
          return;
        }
      }
    }

    /** One pass of process_fmt's loop at a character other than the
        terminator: what it puts, followed by the text of the rest of the
        format string (nothing once a lone '%' ended it), is the text from i. */
    method PutStep(fmt: seq<char>, i: nat, args: seq<Arg>, ai: nat) returns (i': nat, ai': nat, done: bool)
      requires Valid() && i < |fmt| && NUL in fmt[i..] && Conforms(fmt, i, args, ai) && fmt[i] != NUL
      modifies this, buf
      ensures Valid() && i < i'
      ensures !done ==> i' < |fmt| && NUL in fmt[i'..] && Conforms(fmt, i', args, ai')
      ensures done ==> emitted == old(emitted) + FormatFrom(fmt, i, args, ai)
      ensures !done ==>
        emitted + FormatFrom(fmt, i', args, ai') == old(emitted) + FormatFrom(fmt, i, args, ai)
    {
      var c := fmt[i];
      if c != '%' {
        StepPlain(fmt, i, args, ai);
        PutPiece([c], FormatFrom(fmt, i + 1, args, ai));
        return i + 1, ai, false;
      }
      StepPercent(fmt, i);
      if fmt[i + 1] == NUL {
        Putc('%');
        return i + 1, ai, true;
      }
      c := fmt[i + 1];
      if IsConversion(c) {
        StepConversion(fmt, i, args, ai);
        ghost var e0 := emitted;
        PutDirective(c, args[ai]);
        Assoc(e0, Directive(c, args[ai]), FormatFrom(fmt, i + 2, args, ai + 1));
        return i + 2, ai + 1, false;
      }
      StepOther(fmt, i, args, ai);
      if c == '%' {
        PutPiece(['%'], FormatFrom(fmt, i + 2, args, ai));
      } else {
        PutPiece(['%', c], FormatFrom(fmt, i + 2, args, ai));
      }
      return i + 2, ai, false;
    }

    /** Puts the one or two characters of `piece`. */
    method PutPiece(piece: seq<char>, rest: seq<char>)
      requires Valid() && 1 <= |piece| <= 2
      modifies this, buf
      ensures Valid() && emitted == old(emitted) + piece
      ensures emitted + rest == old(emitted) + (piece + rest)
    {
      Putc(piece[0]);
      if |piece| == 2 {
        Putc(piece[1]);
        assert piece == [piece[0]] + [piece[1]];
      }
      Assoc(old(emitted), piece, rest);
    }
  }

  lemma Assoc(a: seq<char>, b: seq<char>, c: seq<char>)
    ensures (a + b) + c == a + (b + c)
  {
  }

  /** One step of FormatFrom at an ordinary character. */
  lemma StepPlain(fmt: seq<char>, i: nat, args: seq<Arg>, ai: nat)
    requires i < |fmt| && NUL in fmt[i..] && Conforms(fmt, i, args, ai)
    requires fmt[i] != NUL && fmt[i] != '%'
    ensures i + 1 < |fmt| && NUL in fmt[i + 1..] && Conforms(fmt, i + 1, args, ai)
    ensures FormatFrom(fmt, i, args, ai) == [fmt[i]] + FormatFrom(fmt, i + 1, args, ai)
  {
    assert fmt[i + 1..] == fmt[i..][1..];
  }

  /** A '%' always has a next character inside a C string. */
  lemma StepPercent(fmt: seq<char>, i: nat)
    requires i < |fmt| && NUL in fmt[i..] && fmt[i] == '%'
    ensures i + 1 < |fmt| && NUL in fmt[i + 1..]
    ensures fmt[i + 1] != NUL ==> i + 2 < |fmt| && NUL in fmt[i + 2..]
  {
    assert fmt[i + 1..] == fmt[i..][1..];
    if fmt[i + 1] != NUL {
      assert fmt[i + 2..] == fmt[i + 1..][1..];
    }
  }

  /** One step of FormatFrom at a conversion directive. */
  lemma StepConversion(fmt: seq<char>, i: nat, args: seq<Arg>, ai: nat)
    requires i + 2 < |fmt| && NUL in fmt[i + 2..] && Conforms(fmt, i, args, ai)
    requires fmt[i] == '%' && fmt[i + 1] != NUL && IsConversion(fmt[i + 1])
    ensures ai < |args| && Conforms(fmt, i + 2, args, ai + 1)
    ensures fmt[i + 1] == 's' ==> args[ai].Str? && NUL in args[ai].s
    ensures fmt[i + 1] != 's' ==> args[ai].Word?
    ensures NUL in fmt[i..] && FormatFrom(fmt, i, args, ai)
      == Directive(fmt[i + 1], args[ai]) + FormatFrom(fmt, i + 2, args, ai + 1)
  {
    assert fmt[i + 2..] == fmt[i..][2..];
  }

  /** One step of FormatFrom at "%%" or an unknown directive. */
  lemma StepOther(fmt: seq<char>, i: nat, args: seq<Arg>, ai: nat)
    requires i + 2 < |fmt| && NUL in fmt[i + 2..] && Conforms(fmt, i, args, ai)
    requires fmt[i] == '%' && fmt[i + 1] != NUL && !IsConversion(fmt[i + 1])
    ensures Conforms(fmt, i + 2, args, ai)
    ensures NUL in fmt[i..] && FormatFrom(fmt, i, args, ai)
      == (if fmt[i + 1] == '%' then ['%'] else ['%', fmt[i + 1]]) + FormatFrom(fmt, i + 2, args, ai)
  {
    assert fmt[i + 2..] == fmt[i..][2..];
  }

  /** The hexadecimal digits of n, least significant first, in tmp[0..l): the
      digit loop of buf_putx followed by its zero padding to 8 characters. */
  method HexToStr(n: u32, tmp: array<char>) returns (l: nat)
    requires n > 0 && tmp.Length == 32
    modifies tmp
    ensures l <= 32 && tmp[..l] == PadZeros(HexLsf(n), 8)
  {
    l := 0;
    var v: nat := n;
    HexLsfLength(n, 8, Pow(16, 8));
    while v > 0 && l < 32
      invariant l <= 8 && HexLsf(n) == tmp[..l] + HexLsf(v)
    {
      ghost var done := tmp[..l];
      tmp[l] := HexDigit(v % 16);  // n & 0xF, then n >>= 4
      assert tmp[..l + 1] == done + [HexDigit(v % 16)];
      Assoc(done, [HexDigit(v % 16)], HexLsf(v / 16));
      v := v / 16;
      l := l + 1;
    }
    assert tmp[..l] == HexLsf(n);
    while l < 8
      invariant l <= 8 && PadZeros(tmp[..l], 8) == PadZeros(HexLsf(n), 8)
    {
      tmp[l] := '0';
      assert tmp[..l + 1] == tmp[..l] + ['0'];
      l := l + 1;
    }
  }

  /** convert_u32_to_str: the decimal digits of n, least significant first,
      into tmp[0..l), never more than len of them. */
  method ConvertU32ToStr(n: u32, tmp: array<char>, len: nat) returns (l: nat)
    requires len <= tmp.Length
    modifies tmp
    ensures l == Min(|DecLsf(n)|, len) && tmp[..l] == DecLsf(n)[..l]
    ensures tmp[l..] == old(tmp[l..])
  {
    l := 0;
    var v: nat := n;
    while v > 0 && l < len
      invariant l <= len && l <= |DecLsf(n)|
      invariant DecLsf(n) == tmp[..l] + DecLsf(v)
      invariant tmp[l..] == old(tmp[l..])
    {
      ghost var done := tmp[..l];
      tmp[l] := DecDigit(v % 10);
      assert tmp[..l + 1] == done + [DecDigit(v % 10)];
      Assoc(done, [DecDigit(v % 10)], DecLsf(v / 10));
      v := v / 10;
      l := l + 1;
    }
  }

  /** vsnprintf (len >= 1): buf receives the longest prefix of the formatted
      text that leaves room for a NUL, and the NUL right after it. */
  method Vsnprintf(buf: array<char>, len: nat, fmt: seq<char>, args: seq<Arg>)
    requires 1 <= len <= buf.Length
    requires NUL in fmt && Conforms(fmt, 0, args, 0)
    modifies buf
    ensures var text := Format(fmt, args);
      var k := Min(|text|, len - 1);
      buf[..k] == text[..k] && buf[k] == NUL && buf[k + 1..] == old(buf[k + 1..])
  {
    var pb := new PrintfBuf(buf, len, -1);
    pb.ProcessFmt(fmt, args);
    ghost var text := Format(fmt, args);
    assert pb.emitted == text;
    ghost var e := pb.end;
    assert buf[..e] == text[..e] && buf[e..] == old(buf[e..]);
    if pb.end >= pb.len {
      pb.end := pb.end - 1;
    }
    buf[pb.end] := NUL;
  }

  /** memset: whole 32-bit words of the repeated byte first, then the byte tail. */
  method Memset(mem: array<bv8>, p: nat, b: bv8, l: u32)
    requires p + l <= mem.Length
    modifies mem
    ensures forall i :: 0 <= i < mem.Length ==>
      mem[i] == if p <= i < p + l then b else old(mem[i])
  {
    var n: nat := l;
    var sp := p;
    var l4 := n / 4;
    if l4 > 0 {
      var bb: bv32 := ((b as bv32) << 8) | (b as bv32);
      bb := bb | (bb << 16);
      SplatBytes(b, bb);
      while l4 > 0
        invariant sp == p + 4 * (l / 4 - l4) && l4 <= l / 4
        invariant forall i :: 0 <= i < mem.Length ==>
          mem[i] == if p <= i < sp then b else old(mem[i])
      {
        // *(bp++) = bb: a little-endian word store of four copies of b
        mem[sp] := WordByte(bb, 0);
        mem[sp + 1] := WordByte(bb, 1);
        mem[sp + 2] := WordByte(bb, 2);
        mem[sp + 3] := WordByte(bb, 3);
        sp := sp + 4;
        l4 := l4 - 1;
      }
      n := n % 4;
    }
    while n > 0
      invariant sp + n == p + l
      invariant forall i :: 0 <= i < mem.Length ==>
        mem[i] == if p <= i < sp then b else old(mem[i])
    {
      mem[sp] := b;
      sp := sp + 1;
      n := n - 1;
    }
  }

  /** Byte k (0 = least significant) of a 32-bit word. */
  function WordByte(w: bv32, k: nat): bv8
    requires k < 4
  {
    ((w >> (8 * k) as bv5) & 0xFF) as bv8
  }

  lemma SplatBytes(b: bv8, bb: bv32)
    requires bb == (((b as bv32) << 8) | (b as bv32)) | ((((b as bv32) << 8) | (b as bv32)) << 16)
    ensures WordByte(bb, 0) == b && WordByte(bb, 1) == b
    ensures WordByte(bb, 2) == b && WordByte(bb, 3) == b
  {
  }

  /** strlen: the number of characters before the first NUL. */
  method Strlen(s: seq<char>) returns (l: nat)
    requires NUL in s
    ensures l < |s| && s[l] == NUL
    ensures forall i :: 0 <= i < l ==> s[i] != NUL
  {
    l := 0;
    while s[l] != NUL
      invariant l <= CLen(s)
      decreases CLen(s) - l
    {
      l := l + 1;
    }
  }
}
