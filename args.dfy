/**
 * Command-line handling: C strings in NUL-terminated buffers, atoi (blanks,
 * an optional sign, decimal digits), the "WxH" resolution splitter that
 * cuts its argument in place, and the argument loop that fills in the
 * settings or refuses them.
 */
module Args {
  import opened Defs

  /* ---------- C strings ---------- */

  /** The C string starting at offset j of buffer a: everything up to the first NUL (or the end). */
  function CStringAt(a: seq<char>, j: nat): (s: string)
    ensures j <= |a| ==> j + |s| <= |a|
    ensures forall k :: 0 <= k < |s| ==> j + k < |a| && a[j + k] == s[k] && s[k] != NUL
    ensures j + |s| < |a| ==> a[j + |s|] == NUL
    decreases |a| - j
  {
    if j >= |a| || a[j] == NUL then [] else [a[j]] + CStringAt(a, j + 1)
  }

  /** The C string a buffer holds from its start. */
  function CString(a: seq<char>): string {
    CStringAt(a, 0)
  }

  /** Reading from offset i runs through the NUL-free stretch a[i..j] and then continues as from j. */
  lemma {:induction false} CStringSplit(a: seq<char>, i: nat, j: nat)
    requires i <= j <= |a|
    requires forall k :: i <= k < j ==> a[k] != NUL
    ensures CStringAt(a, i) == a[i..j] + CStringAt(a, j)
    decreases j - i
  {
    if i < j {
      CStringSplit(a, i + 1, j);
      assert a[i..j] == [a[i]] + a[i + 1..j];
    }
  }

  /** Two buffers that agree from offset j on hold the same C string there. */
  lemma {:induction false} CStringSameTail(a: seq<char>, b: seq<char>, j: nat)
    requires |a| == |b|
    requires forall k :: j <= k < |a| ==> a[k] == b[k]
    ensures CStringAt(a, j) == CStringAt(b, j)
    decreases |a| - j
  {
    if j < |a| && a[j] != NUL {
      CStringSameTail(a, b, j + 1);
    }
  }

  /* ---------- atoi ---------- */

  predicate IsDigit(c: char) {
    '0' <= c <= '9'
  }

  predicate AllDigits(d: string) {
    forall k :: 0 <= k < |d| ==> IsDigit(d[k])
  }

  /** The blanks atoi skips (those of isspace): space, tab, newline, vertical tab, form feed, carriage return. */
  predicate IsSpace(c: char) {
    c == ' ' || c == '\t' || c == '\n' || c == '\U{000B}' || c == '\U{000C}' || c == '\r'
  }

  /** The longest prefix of s made of decimal digits. */
  function LeadingDigits(s: string): (d: string)
    ensures |d| <= |s| && d == s[..|d|]
    ensures AllDigits(d)
    ensures |d| == |s| || !IsDigit(s[|d|])
  {
    if |s| == 0 || !IsDigit(s[0]) then [] else [s[0]] + LeadingDigits(s[1..])
  }

  /** The number a string of decimal digits denotes, most significant digit first. */
  function DigitsValue(d: string): nat
    requires AllDigits(d)
  {
    if |d| == 0 then 0 else 10 * DigitsValue(d[..|d| - 1]) + (d[|d| - 1] as int - '0' as int)
  }

  /** A string atoi finds no number in: empty, or starting with neither a blank, a sign nor a digit. */
  predicate NoNumber(s: string) {
    |s| == 0 || (!IsSpace(s[0]) && s[0] != '-' && s[0] != '+' && !IsDigit(s[0]))
  }

  /**
   * atoi: leading blanks are skipped, then one optional sign, then the
   * longest run of decimal digits is read; 0 when there are none.
   */
  function Atoi(s: string): (n: int)
    ensures n < 0 ==> '-' in s
    ensures |s| > 0 && AllDigits(s) ==> n == DigitsValue(s)
    ensures NoNumber(s) ==> n == 0
  {
    if |s| > 0 && IsSpace(s[0]) then
      var n := Atoi(s[1..]);
      assert n < 0 ==> '-' in s by {
        if n < 0 {
          var j :| 0 <= j < |s| - 1 && s[1..][j] == '-';
          assert s[j + 1] == '-';
        }
      }
      n
    else if |s| > 0 && s[0] == '-' then 0 - DigitsValue(LeadingDigits(s[1..]))
    else if |s| > 0 && s[0] == '+' then DigitsValue(LeadingDigits(s[1..]))
    else
      assert |s| > 0 && AllDigits(s) ==> |LeadingDigits(s)| == |s| && LeadingDigits(s) == s[..|s|] == s;
      DigitsValue(LeadingDigits(s))
  }

  function DigitChar(n: nat): (c: char)
    requires n < 10
    ensures IsDigit(c) && c as int - '0' as int == n
  {
    ('0' as int + n) as char
  }

  /** The decimal rendering of n, without leading zeros. */
  function Decimal(n: nat): (s: string)
    ensures |s| >= 1 && AllDigits(s)
  {
    if n < 10 then [DigitChar(n)] else Decimal(n / 10) + [DigitChar(n % 10)]
  }

  /** The decimal rendering of any integer: a '-' before the digits of a negative one. */
  function Signed(n: int): (s: string)
    ensures |s| >= 1 && (s[0] == '-' <==> n < 0)
    ensures forall k :: 0 <= k < |s| ==> IsDigit(s[k]) || (k == 0 && s[k] == '-')
  {
    if n < 0 then "-" + Decimal(-n) else Decimal(n)
  }

  lemma {:induction false} DecimalValue(n: nat)
    ensures DigitsValue(Decimal(n)) == n
  {
    if n >= 10 {
      DecimalValue(n / 10);
      var s := Decimal(n);
      assert s[..|s| - 1] == Decimal(n / 10);
    }
  }

  /** The digit run of d + rest is exactly d when rest does not start with a digit. */
  lemma {:induction false} LeadingDigitsOf(d: string, rest: string)
    requires AllDigits(d)
    requires rest == [] || !IsDigit(rest[0])
    ensures LeadingDigits(d + rest) == d
  {
    if |d| > 0 {
      LeadingDigitsOf(d[1..], rest);
      assert (d + rest)[1..] == d[1..] + rest;
    }
  }

  /** atoi reads a digit run, whatever non-digit text follows it. */
  lemma {:induction false} AtoiDigits(d: string, rest: string)
    requires |d| >= 1 && AllDigits(d)
    requires rest == [] || !IsDigit(rest[0])
    ensures Atoi(d + rest) == DigitsValue(d)
  {
    LeadingDigitsOf(d, rest);
    var s := d + rest;
    assert s[0] == d[0] && !IsSpace(s[0]) && s[0] != '-' && s[0] != '+';
  }

  /** atoi reads a '-' and a digit run as the negated number, whatever non-digit text follows it. */
  lemma {:induction false} AtoiNegative(d: string, rest: string)
    requires AllDigits(d)
    requires rest == [] || !IsDigit(rest[0])
    ensures Atoi(("-" + d) + rest) == 0 - DigitsValue(d)
  {
    LeadingDigitsOf(d, rest);
    var s := ("-" + d) + rest;
    assert s[0] == '-' && s[1..] == d + rest;
  }

  /** atoi reads back the decimal rendering of any integer, whatever non-digit text follows it. */
  lemma {:induction false} AtoiSigned(n: int, rest: string)
    requires rest == [] || !IsDigit(rest[0])
    ensures Atoi(Signed(n) + rest) == n
  {
    var m: nat := if n < 0 then -n else n;
    DecimalValue(m);
    if n < 0 {
      AtoiNegative(Decimal(m), rest);
      assert Signed(n) == "-" + Decimal(m);
    } else {
      AtoiDigits(Decimal(m), rest);
      assert Signed(n) == Decimal(m);
    }
  }

  /* ---------- parse_resolution ---------- */

  /** The position of the first ch in s. */
  function FirstIndex(s: string, ch: char): (i: nat)
    requires ch in s
    ensures i < |s| && s[i] == ch && ch !in s[..i]
  {
    if s[0] == ch then 0 else 1 + FirstIndex(s[1..], ch)
  }

  lemma {:induction false} FirstIndexUnique(s: string, ch: char, i: nat)
    requires i < |s| && s[i] == ch && ch !in s[..i]
    ensures FirstIndex(s, ch) == i
  {
    if i > 0 {
      assert s[..i] == [s[0]] + s[1..][..i - 1];
      FirstIndexUnique(s[1..], ch, i - 1);
    }
  }

  /**
   * The (width, height) a "WxH" string yields: atoi of the text before the
   * first 'x' and of the text after it, each cut to 16 bits; (0, 0) when
   * there is no 'x'.
   */
  function Resolution(s: string): (r: (U16, U16))
    ensures 'x' !in s ==> r == (0, 0)
    ensures 'x' in s ==> exists i :: 0 <= i < |s| && s[i] == 'x' && 'x' !in s[..i] &&
                                     r == (ToU16(Atoi(s[..i])), ToU16(Atoi(s[i + 1..])))
  {
    if 'x' in s then
      var i := FirstIndex(s, 'x');
      (ToU16(Atoi(s[..i])), ToU16(Atoi(s[i + 1..])))
    else
      (0, 0)
  }

  /** A string split at its first 'x' yields the two halves read by atoi. */
  lemma {:induction false} ResolutionSplit(a: string, b: string)
    requires 'x' !in a
    ensures Resolution(a + "x" + b) == (ToU16(Atoi(a)), ToU16(Atoi(b)))
  {
    var s := a + "x" + b;
    assert s[|a|] == 'x' && s[..|a|] == a && s[|a| + 1..] == b;
    FirstIndexUnique(s, 'x', |a|);
  }

  /** Every pair of integers rendered as "WxH" reads back as itself cut to 16 bits. */
  lemma {:induction false} ResolutionRoundTrip(w: int, h: int)
    ensures Resolution(Signed(w) + "x" + Signed(h)) == (ToU16(w), ToU16(h))
  {
    ResolutionSplit(Signed(w), Signed(h));
    AtoiSigned(w, []);
    AtoiSigned(h, []);
    assert Signed(w) + [] == Signed(w) && Signed(h) + [] == Signed(h);
  }

  /** Only the first 'x' splits: the height is read from everything after it, and atoi stops at the second 'x'. */
  lemma {:induction false} ResolutionFirstX()
    ensures Resolution("10x7x3") == (10, 7)
  {
    assert "10x7x3" == Signed(10) + "x" + (Signed(7) + "x3");
    ResolutionSplit(Signed(10), Signed(7) + "x3");
    AtoiSigned(10, []);
    assert Signed(10) + [] == Signed(10);
    AtoiSigned(7, "x3");
  }

  /** Without an 'x' the resolution is 0x0, which the minimum then refuses. */
  lemma {:induction false} ResolutionWithoutX()
    ensures Resolution("12") == (0, 0)
  {
    assert 'x' !in "12" by {
      assert "12"[0] != 'x' && "12"[1] != 'x';
    }
  }

  /** An empty half reads as 0. */
  lemma {:induction false} ResolutionEmptyHalf()
    ensures Resolution("x9") == (0, 9)
  {
    assert "x9" == [] + "x" + Signed(9);
    ResolutionSplit([], Signed(9));
    AtoiSigned(9, []);
    assert Signed(9) + [] == Signed(9);
  }

  /** The buffer parse_resolution leaves behind: the first 'x' of its C string overwritten by NUL. */
  function CutAtX(a: seq<char>): (r: seq<char>)
    ensures |r| == |a|
    ensures forall k :: 0 <= k < |a| && r[k] != a[k] ==>
      r[k] == NUL && a[k] == 'x' && forall j :: 0 <= j < k ==> a[j] != 'x' && a[j] != NUL
  {
    var s := CString(a);
    if 'x' in s then
      var i := FirstIndex(s, 'x');
      assert forall j :: 0 <= j < i ==> a[j] == s[j] && s[j] != 'x' && s[j] != NUL by {
        forall j | 0 <= j < i
          ensures a[j] == s[j] && s[j] != 'x' && s[j] != NUL
        {
          assert s[..i][j] == s[j];
        }
      }
      a[i := NUL]
    else a
  }

  /** After the cut, the buffer's C string ends just before its first 'x'. */
  lemma {:induction false} CutEndsString(a: seq<char>)
    ensures var s := CString(a); CString(CutAtX(a)) == if 'x' in s then s[..FirstIndex(s, 'x')] else s
  {
    var s := CString(a);
    if 'x' in s {
      var j := FirstIndex(s, 'x');
      var r := a[j := NUL];
      assert forall k :: 0 <= k < j ==> r[k] == s[k] != NUL;
      CStringSplit(r, 0, j);
      assert r[..j] == s[..j];
    }
  }

  /** A buffer whose first 'x' comes at j, before any NUL: what the resolution and the cut are. */
  lemma {:induction false} BufferWithX(a: seq<char>, j: nat)
    requires j < |a| && a[j] == 'x'
    requires forall k :: 0 <= k < j ==> a[k] != 'x' && a[k] != NUL
    ensures Resolution(CString(a)) == (ToU16(Atoi(a[..j])), ToU16(Atoi(CStringAt(a, j + 1))))
    ensures CutAtX(a) == a[j := NUL]
  {
    var s := CString(a);
    var rest := CStringAt(a, j + 1);
    CStringSplit(a, 0, j);
    assert CStringAt(a, j) == ['x'] + rest;
    assert s == a[..j] + "x" + rest;
    ResolutionSplit(a[..j], rest);
    assert s[j] == 'x' && s[..j] == a[..j];
    FirstIndexUnique(s, 'x', j);
  }

  /** Overwriting that 'x' with NUL leaves the width's text as the C string and the height's text after it. */
  lemma {:induction false} CutBuffer(a: seq<char>, j: nat)
    requires j < |a|
    requires forall k :: 0 <= k < j ==> a[k] != NUL
    ensures CString(a[j := NUL]) == a[..j] && CStringAt(a[j := NUL], j + 1) == CStringAt(a, j + 1)
  {
    var r := a[j := NUL];
    CStringSplit(r, 0, j);
    assert r[..j] == a[..j];
    CStringSameTail(a, r, j + 1);
  }

  /** A buffer with no 'x' before its first NUL, at j: the resolution is 0x0 and nothing is cut. */
  lemma {:induction false} BufferWithoutX(a: seq<char>, j: nat)
    requires j < |a| && a[j] == NUL
    requires forall k :: 0 <= k < j ==> a[k] != 'x' && a[k] != NUL
    ensures Resolution(CString(a)) == (0, 0)
    ensures CutAtX(a) == a
  {
    CStringSplit(a, 0, j);
    assert CString(a) == a[..j];
    assert 'x' !in a[..j];
  }

  /**
   * Splits the NUL-terminated buffer src at its first 'x': the 'x' is
   * overwritten with NUL and the two halves are read with atoi. Without an
   * 'x' before the terminator the buffer is left alone and the result is 0x0.
   */
  method ParseResolution(src: array<char>) returns (w: U16, h: U16)
    requires NUL in src[..]
    modifies src
    ensures (w, h) == Resolution(CString(old(src[..])))
    ensures src[..] == CutAtX(old(src[..]))
  {
    w, h := 0, 0;
    ghost var a := src[..];
    ghost var n :| 0 <= n < src.Length && src[n] == NUL;

    var j := 0;
    while src[j] != 'x' && src[j] != NUL
      invariant 0 <= j <= n
      invariant forall k :: 0 <= k < j ==> src[k] != 'x' && src[k] != NUL
      decreases n - j
    {
      j := j + 1;
    }

    // No 'x' before the terminator: the format is invalid
    if src[j] != 'x' {
      BufferWithoutX(a, j);
      return;
    }

    // Cut the string at the 'x'; the height starts just after it
    BufferWithX(a, j);
    CutBuffer(a, j);
    src[j] := NUL;
    assert src[..] == a[j := NUL];
    w := ToU16(Atoi(CString(src[..])));
    h := ToU16(Atoi(CStringAt(src[..], j + 1)));
  }

  /* ---------- parse_args ---------- */

  /** Why the arguments were refused (the usage text follows each of these). */
  datatype Refusal = MissingValue | BadResolution | BadScale | HelpRequested

  /** What the program does after reading its arguments. */
  datatype Outcome =
    | Start(settings: Settings)   // go on to the game with these settings
    | ShowControls                // print the controls and exit
    | ShowUsage(why: Refusal)     // print the usage and exit

  /** The options the program recognises; every other argument is skipped. */
  datatype Flag = ResolutionFlag | ScaleFlag | KeysFlag | HelpFlag | OtherArg

  /** Which option an argument names, long or short spelling. */
  function FlagOf(arg: string): Flag {
    if arg == "-r" || arg == "--resolution" then ResolutionFlag
    else if arg == "-s" || arg == "--scale" then ScaleFlag
    else if arg == "-k" || arg == "--keys" then KeysFlag
    else if arg == "-h" || arg == "--help" then HelpFlag
    else OtherArg
  }

  /** Each option has exactly its short and its long spelling; the eight spellings are told apart. */
  lemma {:induction false} FlagSpellings(arg: string)
    ensures FlagOf(arg) == ResolutionFlag <==> arg == "-r" || arg == "--resolution"
    ensures FlagOf(arg) == ScaleFlag <==> arg == "-s" || arg == "--scale"
    ensures FlagOf(arg) == KeysFlag <==> arg == "-k" || arg == "--keys"
    ensures FlagOf(arg) == HelpFlag <==> arg == "-h" || arg == "--help"
  {
    assert "-s"[1] != "-r"[1] && |"-s"| != |"--resolution"|;
    assert "-k"[1] != "-r"[1] && "-k"[1] != "-s"[1] && |"-k"| != |"--scale"|;
    assert "-h"[1] != "-r"[1] && "-h"[1] != "-s"[1] && "-h"[1] != "-k"[1] && |"-h"| != |"--keys"|;
    assert |"--scale"| != |"--resolution"| && |"--keys"| != |"--resolution"| && |"--keys"| != |"--scale"|;
    assert |"--help"| != |"--resolution"| && |"--help"| != |"--scale"| && "--help"[2] != "--keys"[2];
  }

  /**
   * -k/--keys and -h/--help are never accepted as the value of -r or -s:
   * they hold no 'x' and atoi reads them as 0.
   */
  lemma {:induction false} StopOptionIsNoValue(arg: string)
    ensures FlagOf(arg) == KeysFlag || FlagOf(arg) == HelpFlag ==> Resolution(arg) == (0, 0) && Atoi(arg) == 0
  {
    if FlagOf(arg) == KeysFlag || FlagOf(arg) == HelpFlag {
      assert arg[0] == '-' && !IsDigit(arg[1]) && arg[1] != 'x';
      assert forall k :: 0 <= k < |arg| ==> arg[k] != 'x';
      assert !IsSpace(arg[0]);
      assert LeadingDigits(arg[1..]) == [];
    }
  }

  /**
   * The three ways the argument loop may read one argument: as an option
   * name, as the value of -r (parse_resolution) and as the value of -s
   * (atoi cut to 16 bits). The argument's position decides which one
   * counts.
   */
  datatype Reading = Reading(flag: Flag, size: (U16, U16), scale: U16)

  /** The three readings of one argument. */
  function ReadingOf(arg: string): Reading {
    Reading(FlagOf(arg), Resolution(arg), ToU16(Atoi(arg)))
  }

  /** The readings of every argument of a vector, in order. */
  function Readings(args: seq<string>): (rs: seq<Reading>)
    ensures |rs| == |args|
  {
    seq(|args|, k requires 0 <= k < |args| => ReadingOf(args[k]))
  }

  /** What one pass of the argument loop does: stop with an outcome, or go on at next with new settings. */
  datatype Step = Stop(outcome: Outcome) | Continue(next: nat, settings: Settings)

  /**
   * One pass of the argument loop at index i of the read arguments, with
   * settings s so far: -r/--resolution and -s/--scale consume the next
   * argument (which must exist) and check it at once, -k/--keys and
   * -h/--help end the reading, and anything else is skipped. The reading
   * always moves forward, and valid settings stay valid.
   */
  function StepAt(args: seq<Reading>, i: nat, s: Settings): (r: Step)
    requires i < |args|
    ensures r.Continue? ==> i < r.next <= |args|
    ensures r.Continue? && ValidSettings(s) ==> ValidSettings(r.settings)
  {
    match args[i].flag
    case ResolutionFlag =>
      if i == |args| - 1 then Stop(ShowUsage(MissingValue))
      else
        var r := args[i + 1].size;
        if r.0 < MIN_W || r.1 < MIN_H then Stop(ShowUsage(BadResolution))
        else Continue(i + 2, s.(w := r.0, h := r.1))
    case ScaleFlag =>
      if i == |args| - 1 then Stop(ShowUsage(MissingValue))
      else
        var sc := args[i + 1].scale;
        if sc < 1 then Stop(ShowUsage(BadScale))
        else Continue(i + 2, s.(sc := sc))
    case KeysFlag => Stop(ShowControls)
    case HelpFlag => Stop(ShowUsage(HelpRequested))
    case OtherArg => Continue(i + 1, s)
  }

  /** The outcome of the loop from index i on, with settings s so far. */
  function ParseFrom(args: seq<Reading>, i: nat, s: Settings): (r: Outcome)
    ensures ValidSettings(s) && r.Start? ==> ValidSettings(r.settings)
    decreases |args| - i
  {
    if i >= |args| then Start(s)
    else match StepAt(args, i, s)
      case Stop(o) => o
      case Continue(next, s') => ParseFrom(args, next, s')
  }

  /** The outcome for a whole argument vector; args[0] is the program name. */
  function Parse(args: seq<string>, s: Settings): (r: Outcome)
    ensures ValidSettings(s) && r.Start? ==> ValidSettings(r.settings)
  {
    ParseFrom(Readings(args), 1, s)
  }

  /**
   * The game starts only when no argument asks for the controls or the
   * help: such an argument either ends the reading or, as the value of -r
   * or -s, is refused.
   */
  lemma {:induction false} StartHasNoStopOption(args: seq<string>, i: nat, s: Settings)
    requires ParseFrom(Readings(args), i, s).Start?
    ensures forall k :: i <= k < |args| ==> FlagOf(args[k]) != KeysFlag && FlagOf(args[k]) != HelpFlag
    decreases |args| - i
  {
    if i < |args| {
      var rs := Readings(args);
      var f := FlagOf(args[i]);
      assert rs[i].flag == f;
      var step := StepAt(rs, i, s);
      assert step.Continue? && f != KeysFlag && f != HelpFlag;
      StartHasNoStopOption(args, step.next, step.settings);
      if step.next == i + 2 {
        StopOptionIsNoValue(args[i + 1]);
        assert rs[i + 1] == ReadingOf(args[i + 1]);
      }
      forall k | i <= k < |args|
        ensures FlagOf(args[k]) != KeysFlag && FlagOf(args[k]) != HelpFlag
      {
        if k == i {
          assert FlagOf(args[k]) == f;
        } else if k == i + 1 && step.next == i + 2 {
          assert FlagOf(args[k]) != KeysFlag && FlagOf(args[k]) != HelpFlag;
        } else {
          assert k >= step.next;
        }
      }
    }
  }

  /** A resolution argument without an 'x' is always refused. */
  lemma {:induction false} ResolutionWithoutXRefused(args: seq<string>, i: nat, s: Settings)
    requires i + 1 < |args| && (args[i] == "-r" || args[i] == "--resolution")
    requires 'x' !in args[i + 1]
    ensures ParseFrom(Readings(args), i, s) == ShowUsage(BadResolution)
  {
    var rs := Readings(args);
    assert rs[i].flag == ResolutionFlag && rs[i + 1].size == Resolution(args[i + 1]) == (0, 0);
  }

  /**
   * "-r WxH" starts the game with that size cut to 16 bits, unless a side
   * then falls below the minimum.
   */
  lemma {:induction false} ResolutionArgument(prog: string, w: int, h: int, s: Settings)
    ensures Parse([prog, "-r", Signed(w) + "x" + Signed(h)], s)
         == var w', h' := ToU16(w), ToU16(h);
            if w' >= MIN_W && h' >= MIN_H then Start(s.(w := w', h := h')) else ShowUsage(BadResolution)
  {
    var args := [prog, "-r", Signed(w) + "x" + Signed(h)];
    var rs := Readings(args);
    ResolutionRoundTrip(w, h);
    assert rs[1].flag == FlagOf(args[1]) == ResolutionFlag;
    assert rs[2].size == Resolution(args[2]) == (ToU16(w), ToU16(h));
    assert ParseFrom(rs, 3, s.(w := ToU16(w), h := ToU16(h))) == Start(s.(w := ToU16(w), h := ToU16(h)));
  }

  /** "-s N" sets the scale to N cut to 16 bits, and refuses the value when that is 0. */
  lemma {:induction false} ScaleArgument(prog: string, n: int, s: Settings)
    ensures Parse([prog, "-s", Signed(n)], s)
         == if ToU16(n) >= 1 then Start(s.(sc := ToU16(n))) else ShowUsage(BadScale)
  {
    var args := [prog, "-s", Signed(n)];
    var rs := Readings(args);
    AtoiSigned(n, []);
    assert Signed(n) + [] == Signed(n);
    assert rs[1].flag == FlagOf(args[1]) == ScaleFlag;
    assert rs[2].scale == ToU16(Atoi(args[2])) == ToU16(n);
    assert ParseFrom(rs, 3, s.(sc := ToU16(n))) == Start(s.(sc := ToU16(n)));
  }

  /** "-s" with a value in which atoi finds no number ("abc", "") is refused as scale 0. */
  lemma {:induction false} ScaleWithoutNumberRefused(prog: string, v: string, s: Settings)
    requires NoNumber(v)
    ensures Parse([prog, "-s", v], s) == ShowUsage(BadScale)
  {
    var rs := Readings([prog, "-s", v]);
    assert rs[1].flag == FlagOf("-s") == ScaleFlag;
    assert rs[2].scale == ToU16(Atoi(v)) == 0;
  }

  /** "-r" with a value whose two halves hold no number ("axb", "x") reads as 0x0 and is refused. */
  lemma {:induction false} ResolutionWithoutNumberRefused(prog: string, a: string, b: string, s: Settings)
    requires 'x' !in a && NoNumber(a) && NoNumber(b)
    ensures Parse([prog, "-r", a + "x" + b], s) == ShowUsage(BadResolution)
  {
    var rs := Readings([prog, "-r", a + "x" + b]);
    ResolutionSplit(a, b);
    assert rs[1].flag == FlagOf("-r") == ResolutionFlag;
    assert rs[2].size == Resolution(a + "x" + b) == (0, 0);
  }

  /** With no arguments besides the program name, the game starts with the default settings, which are valid. */
  lemma {:induction false} NoArgumentsStartWithDefaults(prog: string)
    ensures Parse([prog], DEFAULTS) == Start(DEFAULTS)
    ensures ValidSettings(DEFAULTS)
  {
  }

  /** Negative numbers wrap around: "-r -5x-5" asks for 65531x65531, "-s -1" for scale 65535. */
  lemma {:induction false} NegativeValuesWrap(prog: string, s: Settings)
    ensures Resolution("-5x-5") == (65531, 65531)
    ensures Parse([prog, "-s", "-1"], s) == Start(s.(sc := 65535))
  {
    var u := Signed(-5) + "x" + Signed(-5);
    assert u == "-5x-5" by {
      assert Signed(-5) == "-" + Decimal(5) == "-5";
      assert |u| == 5 && u[0] == '-' && u[1] == '5' && u[2] == 'x' && u[3] == '-' && u[4] == '5';
    }
    ResolutionRoundTrip(-5, -5);
    assert "-1" == Signed(-1);
    ScaleArgument(prog, -1, s);
  }

  /**
   * An option that takes a value but comes last is refused, when every
   * argument before it is an ordinary (non-option) argument.
   */
  lemma {:induction false} MissingValueRefused(args: seq<string>, s: Settings)
    requires |args| >= 2
    requires FlagOf(args[|args| - 1]) in {ResolutionFlag, ScaleFlag}
    requires forall k :: 1 <= k < |args| - 1 ==> FlagOf(args[k]) == OtherArg
    ensures Parse(args, s) == ShowUsage(MissingValue)
  {
    var rs := Readings(args);
    var i := 1;
    while i < |args| - 1
      invariant 1 <= i <= |args| - 1
      invariant ParseFrom(rs, i, s) == Parse(args, s)
    {
      assert rs[i].flag == FlagOf(args[i]);
      i := i + 1;
    }
    assert rs[i].flag == FlagOf(args[i]);
  }

  /**
   * The argument whose buffer one pass of the loop at index i cuts (by
   * parse_resolution): the value of a -r, before it is checked.
   */
  function CutAt(args: seq<Reading>, i: nat): set<nat>
    requires i < |args|
  {
    if i + 1 < |args| && args[i].flag == ResolutionFlag then {i + 1} else {}
  }

  /**
   * The arguments whose buffers are cut while reading from index i with
   * settings s: the value of every -r the reading gets to, including a
   * refused one, since the cut comes before the check.
   */
  function Cuts(args: seq<Reading>, i: nat, s: Settings): set<nat>
    decreases |args| - i
  {
    if i >= |args| then {}
    else CutAt(args, i) + match StepAt(args, i, s)
      case Stop(_) => {}
      case Continue(next, s') => Cuts(args, next, s')
  }

  /** Only values of -r are ever cut, and only those after index i. */
  lemma {:induction false} CutIsResolutionValue(args: seq<Reading>, i: nat, s: Settings, k: nat)
    requires k in Cuts(args, i, s)
    ensures i < k < |args| && args[k - 1].flag == ResolutionFlag
    decreases |args| - i
  {
    var step := StepAt(args, i, s);
    if k !in CutAt(args, i) {
      CutIsResolutionValue(args, step.next, step.settings, k);
    }
  }

  /* ---------- argv buffers ---------- */

  /** The C strings an argument vector holds. */
  function Contents(argv: seq<array<char>>): (args: seq<string>)
    reads set k | 0 <= k < |argv| :: argv[k]
    ensures |args| == |argv|
  {
    seq(|argv|, k reads set j | 0 <= j < |argv| :: argv[j] requires 0 <= k < |argv| => CString(argv[k][..]))
  }

  /**
   * One pass of the argument loop at index i, where the buffers hold bufs,
   * read as args: recognises the option there and, for -r and -s, consumes
   * and checks its value. Only the value of a -r is cut, to what cutbufs
   * holds for it.
   */
  method ReadArgument(argv: seq<array<char>>, i: nat, s: Settings, ghost args: seq<Reading>,
                      ghost bufs: seq<seq<char>>, ghost cutbufs: seq<seq<char>>)
      returns (step: Step, ghost cut: set<nat>)
    requires 1 <= i < |argv| && |args| == |argv| && |bufs| == |argv| && |cutbufs| == |argv|
    requires forall k {:trigger ReadingOf(CString(bufs[k]))} :: 0 <= k < |argv| ==> args[k] == ReadingOf(CString(bufs[k]))
    requires forall k {:trigger CutAtX(bufs[k])} :: 0 <= k < |argv| ==> cutbufs[k] == CutAtX(bufs[k])
    requires argv[i][..] == bufs[i]
    requires i + 1 < |argv| ==> argv[i + 1][..] == bufs[i + 1] && NUL in bufs[i + 1]
    modifies if i + 1 < |argv| then {argv[i + 1]} else {}
    ensures step == StepAt(args, i, s)
    ensures cut == CutAt(args, i)
    ensures i + 1 < |argv| ==> argv[i + 1][..] == if i + 1 in cut then cutbufs[i + 1] else bufs[i + 1]
  {
    assert args[i] == ReadingOf(CString(bufs[i]));
    cut := CutAt(args, i);
    var f := FlagOf(CString(argv[i][..]));
    match f {
      case ResolutionFlag =>
        if i == |argv| - 1 {
          return Stop(ShowUsage(MissingValue)), cut;
        }
        assert args[i + 1] == ReadingOf(CString(bufs[i + 1])) && cutbufs[i + 1] == CutAtX(bufs[i + 1]);
        var w, h := ParseResolution(argv[i + 1]);
        if w < MIN_W || h < MIN_H {
          return Stop(ShowUsage(BadResolution)), cut;
        }
        step := Continue(i + 2, s.(w := w, h := h));
      case ScaleFlag =>
        if i == |argv| - 1 {
          return Stop(ShowUsage(MissingValue)), cut;
        }
        assert args[i + 1] == ReadingOf(CString(bufs[i + 1]));
        var sc := ToU16(Atoi(CString(argv[i + 1][..])));
        if sc < 1 {
          return Stop(ShowUsage(BadScale)), cut;
        }
        step := Continue(i + 2, s.(sc := sc));
      case KeysFlag =>
        step := Stop(ShowControls);
      case HelpFlag =>
        step := Stop(ShowUsage(HelpRequested));
      case OtherArg =>
        step := Continue(i + 1, s);
    }
  }

  /**
   * One pass of the argument loop over buffers that held bufs before the
   * loop, where the buffers in done have been cut (to what cutbufs holds):
   * ReadArgument, with the cut it makes added to the others.
   */
  method ReadTracked(argv: seq<array<char>>, i: nat, s: Settings, ghost args: seq<Reading>,
                     ghost bufs: seq<seq<char>>, ghost cutbufs: seq<seq<char>>, ghost done: set<nat>)
      returns (step: Step, ghost cut: set<nat>)
    requires 1 <= i < |argv| && |args| == |argv| && |bufs| == |argv| && |cutbufs| == |argv|
    requires forall k {:trigger ReadingOf(CString(bufs[k]))} :: 0 <= k < |argv| ==> args[k] == ReadingOf(CString(bufs[k]))
    requires forall k {:trigger CutAtX(bufs[k])} :: 0 <= k < |argv| ==> cutbufs[k] == CutAtX(bufs[k])
    requires i + 1 < |argv| ==> NUL in bufs[i + 1]
    requires i + 1 < |argv| ==> forall k :: 0 <= k < |argv| && k != i + 1 ==> argv[k] != argv[i + 1]
    requires forall k :: k in done ==> k < i
    requires forall k :: 0 <= k < |argv| ==> argv[k][..] == if k in done then cutbufs[k] else bufs[k]
    modifies if i + 1 < |argv| then {argv[i + 1]} else {}
    ensures step == StepAt(args, i, s)
    ensures cut == CutAt(args, i)
    ensures forall k :: k in cut ==> i < k && (step.Continue? ==> k < step.next)
    ensures forall k :: 0 <= k < |argv| ==> argv[k][..] == if k in done || k in cut then cutbufs[k] else bufs[k]
  {
    label Before:
    assert argv[i][..] == bufs[i];
    step, cut := ReadArgument(argv, i, s, args, bufs, cutbufs);
    forall k | 0 <= k < |argv|
      ensures argv[k][..] == if k in done || k in cut then cutbufs[k] else bufs[k]
    {
      if k == i + 1 {
        assert k !in done;
      } else {
        assert i + 1 < |argv| ==> argv[k] != argv[i + 1];
        assert argv[k][..] == old@Before(argv[k][..]);
        assert k !in cut;
      }
    }
  }

  /**
   * The argument loop over buffers that hold bufs, whose C strings are
   * read as args: the outcome is ParseFrom's, and the buffers Cuts names
   * end cut, holding what cutbufs holds for them.
   */
  method ReadArguments(argv: seq<array<char>>, init: Settings, ghost args: seq<Reading>,
                       ghost bufs: seq<seq<char>>, ghost cutbufs: seq<seq<char>>)
      returns (outcome: Outcome)
    requires |args| == |argv| && |bufs| == |argv| && |cutbufs| == |argv|
    requires forall k :: 0 <= k < |argv| ==> argv[k][..] == bufs[k] && NUL in bufs[k]
    requires forall k {:trigger ReadingOf(CString(bufs[k]))} :: 0 <= k < |argv| ==> args[k] == ReadingOf(CString(bufs[k]))
    requires forall k {:trigger CutAtX(bufs[k])} :: 0 <= k < |argv| ==> cutbufs[k] == CutAtX(bufs[k])
    requires forall j, k :: 0 <= j < k < |argv| ==> argv[j] != argv[k]
    modifies set k | 0 <= k < |argv| :: argv[k]
    ensures outcome == ParseFrom(args, 1, init)
    ensures forall k :: 0 <= k < |argv| ==> argv[k][..] == if k in Cuts(args, 1, init) then cutbufs[k] else bufs[k]
  {
    ghost var done: set<nat> := {};
    var s := init;
    var i := 1;
    while i < |argv|
      invariant 1 <= i && (i <= |argv| || i == 1)
      invariant ParseFrom(args, i, s) == ParseFrom(args, 1, init)
      invariant Cuts(args, 1, init) == done + Cuts(args, i, s)
      invariant forall k :: k in done ==> k < i
      invariant forall k :: 0 <= k < |argv| ==> argv[k][..] == if k in done then cutbufs[k] else bufs[k]
      decreases |argv| - i
    {
      assert i + 1 < |argv| ==> forall k :: 0 <= k < |argv| && k != i + 1 ==> argv[k] != argv[i + 1];
      var step, cut := ReadTracked(argv, i, s, args, bufs, cutbufs, done);
      done := done + cut;
      match step {
        case Stop(o) =>
          return o;
        case Continue(next, s') =>
          i, s := next, s';
      }
    }
    return Start(s);
  }

  /**
   * Reads the argument vector, checking each option as it comes. The
   * buffers of the arguments Cuts names are cut at their first 'x'; every
   * other buffer, the program name and the options among them, keeps its
   * contents.
   */
  method ParseArgs(argv: seq<array<char>>, init: Settings) returns (outcome: Outcome)
    requires forall k :: 0 <= k < |argv| ==> NUL in argv[k][..]
    requires forall j, k :: 0 <= j < k < |argv| ==> argv[j] != argv[k]
    modifies set k | 0 <= k < |argv| :: argv[k]
    ensures outcome == Parse(old(Contents(argv)), init)
    ensures forall k :: 0 <= k < |argv| ==>
      argv[k][..] == if k in Cuts(Readings(old(Contents(argv))), 1, init) then CutAtX(old(argv[k][..])) else old(argv[k][..])
  {
    ghost var args := Contents(argv);
    ghost var bufs := seq(|argv|, k requires 0 <= k < |argv| reads argv => argv[k][..]);
    ghost var rs := Readings(args);
    ghost var cutbufs := seq(|argv|, k requires 0 <= k < |argv| => CutAtX(bufs[k]));
    assert forall k :: 0 <= k < |argv| ==> rs[k] == ReadingOf(CString(bufs[k]));
    outcome := ReadArguments(argv, init, rs, bufs, cutbufs);
  }
}
