/**
 * The text of a PID file, following the PID-file convention of section 5.13 of the
 * Filesystem Hierarchy Standard 2.3: the writer puts the process id in ASCII decimal
 * followed by a newline; the reader is lenient about white space, leading zeros, a
 * missing newline and extra lines.
 *
 * The writer is Python's "%d\n" formatting; the reader takes `readline()`, then
 * `strip()`, then Python 2's `int()` in base 10.
 */
module PidText {
  import opened Wrappers

  /** The characters that Python 2's `str.strip()` and C's `isspace()` treat as white
      space: space, tab, newline, vertical tab, form feed and carriage return. */
  predicate IsSpace(c: char) {
    c == ' ' || '\t' <= c <= '\r'
  }

  predicate IsDigit(c: char) {
    '0' <= c <= '9'
  }

  predicate IsSign(c: char) {
    c == '+' || c == '-'
  }

  predicate AllSpace(s: string) {
    forall i :: 0 <= i < |s| ==> IsSpace(s[i])
  }

  predicate AllDigits(s: string) {
    forall i :: 0 <= i < |s| ==> IsDigit(s[i])
  }

  predicate AllZeros(s: string) {
    forall i :: 0 <= i < |s| ==> s[i] == '0'
  }

  /** A non-empty run of decimal digits. */
  predicate IsDecimal(s: string) {
    |s| > 0 && AllDigits(s)
  }

  function DigitValue(c: char): (d: nat)
    requires IsDigit(c)
    ensures d < 10
  {
    c as int - '0' as int
  }

  function DigitChar(d: nat): (c: char)
    requires d < 10
    ensures IsDigit(c) && DigitValue(c) == d
  {
    ('0' as int + d) as char
  }

  // ---------------------------------------------------------------------------
  // Writing: "%(pid)d\n"
  // ---------------------------------------------------------------------------

  /** The decimal digits of `n`, most significant first. */
  function Digits(n: nat): (s: string)
    ensures IsDecimal(s)
    ensures s[0] == '0' <==> n == 0
  {
    if n < 10 then [DigitChar(n)] else Digits(n / 10) + [DigitChar(n % 10)]
  }

  /** Python's "%d" rendering of an integer: a minus sign for a negative value, then
      the decimal digits of its magnitude. */
  function Render(n: int): string {
    if n < 0 then "-" + Digits(-n) else Digits(n)
  }

  /** The whole content `write_pid_to_pidfile` puts in a new PID file. */
  function PidLine(pid: int): string {
    Render(pid) + "\n"
  }

  // ---------------------------------------------------------------------------
  // Reading: int(pidfile.readline().strip())
  // ---------------------------------------------------------------------------

  /** Index of the first newline of `s`, or `|s|` when there is none. */
  function NewlineIndex(s: string): (k: nat)
    ensures k <= |s|
    ensures forall i :: 0 <= i < k ==> s[i] != '\n'
    ensures k < |s| ==> s[k] == '\n'
  {
    if s == [] || s[0] == '\n' then 0 else 1 + NewlineIndex(s[1..])
  }

  /** What `readline()` returns: the text up to and including the first newline, or
      all of it when there is no newline. */
  function ReadLine(s: string): (line: string)
    ensures line <= s
    ensures '\n' in s <==> line != [] && line[|line| - 1] == '\n'
    ensures forall i :: 0 <= i < |line| - 1 ==> line[i] != '\n'
    ensures '\n' !in s ==> line == s
  {
    var k := NewlineIndex(s);
    if k < |s| then s[..k + 1] else s
  }

  /** `s` without the white space it starts with. */
  function TrimLeft(s: string): string {
    if s != [] && IsSpace(s[0]) then TrimLeft(s[1..]) else s
  }

  /** `s` without the white space it ends with. */
  function TrimRight(s: string): string {
    if s != [] && IsSpace(s[|s| - 1]) then TrimRight(s[..|s| - 1]) else s
  }

  /** Python's `str.strip()`. */
  function Strip(s: string): string {
    TrimRight(TrimLeft(s))
  }

  /** The value of a string of decimal digits; leading zeros add nothing. */
  function DecimalValue(s: string): nat
    requires AllDigits(s)
  {
    if s == [] then 0 else DecimalValue(s[..|s| - 1]) * 10 + DigitValue(s[|s| - 1])
  }

  /** Python 2's `int(s)` in base 10: surrounding white space, an optional sign, white
      space after the sign, then one or more decimal digits; anything else raises
      ValueError, which is `None` here. */
  function ParseInt(s: string): Option<int> {
    ParseStripped(Strip(s))
  }

  /** `int()` on text that `strip()` has already cleared of surrounding white space. */
  function ParseStripped(t: string): Option<int> {
    if |t| > 0 && IsSign(t[0]) then
      var magnitude := TrimLeft(t[1..]);
      if IsDecimal(magnitude) then
        var value: int := DecimalValue(magnitude);
        Some(if t[0] == '-' then -value else value)
      else None
    else if IsDecimal(t) then Some(DecimalValue(t))
    else None
  }

  /** The pid that `read_pid_from_pidfile` finds in an opened file with this content. */
  function ParsePid(content: string): Option<int> {
    ParseInt(Strip(ReadLine(content)))
  }

  // ---------------------------------------------------------------------------
  // Lemmas about the pieces
  // ---------------------------------------------------------------------------

  /** Reading back the digits of `n` gives `n`. */
  lemma {:induction false} DecimalValueOfDigits(n: nat)
    ensures DecimalValue(Digits(n)) == n
  {
    if n >= 10 {
      var s := Digits(n);
      assert s[..|s| - 1] == Digits(n / 10);
      DecimalValueOfDigits(n / 10);
    }
  }

  lemma {:induction false} ZerosHaveNoValue(z: string)
    requires AllZeros(z)
    ensures AllDigits(z) && DecimalValue(z) == 0
  {
    if z != [] {
      ZerosHaveNoValue(z[..|z| - 1]);
    }
  }

  /** Leading zeros do not change the value of a run of digits. */
  lemma {:induction false} LeadingZerosIgnored(z: string, d: string)
    requires AllZeros(z) && AllDigits(d)
    ensures AllDigits(z + d) && DecimalValue(z + d) == DecimalValue(d)
  {
    if d == [] {
      assert z + d == z;
      ZerosHaveNoValue(z);
    } else {
      var s := z + d;
      assert s[..|s| - 1] == z + d[..|d| - 1];
      LeadingZerosIgnored(z, d[..|d| - 1]);
    }
  }

  lemma SpaceFree(s: string, c: char)
    requires AllSpace(s) && !IsSpace(c)
    ensures c !in s
  {
  }

  lemma NoNewlineInDigits(s: string)
    requires AllDigits(s)
    ensures '\n' !in s
  {
  }

  /** `readline()` stops at the first newline and keeps it. */
  lemma ReadLineStopsAtNewline(line: string, rest: string)
    requires '\n' !in line
    ensures ReadLine(line + "\n" + rest) == line + "\n"
  {
    var s := line + "\n" + rest;
    assert forall i :: 0 <= i < |line| ==> s[i] == line[i] != '\n';
    assert s[|line|] == '\n';
    assert NewlineIndex(s) == |line|;
    assert s[..|line| + 1] == line + "\n";
  }

  /** `TrimLeft` removes exactly a white-space prefix that is followed by a
      non-space character or by nothing. */
  lemma {:induction false} TrimLeftOf(pre: string, rest: string)
    requires AllSpace(pre)
    requires rest == [] || !IsSpace(rest[0])
    ensures TrimLeft(pre + rest) == rest
  {
    if pre == [] {
      assert pre + rest == rest;
    } else {
      var s := pre + rest;
      assert s[0] == pre[0];
      assert s[1..] == pre[1..] + rest;
      TrimLeftOf(pre[1..], rest);
    }
  }

  /** `TrimRight` removes exactly a white-space suffix that follows a non-space
      character or nothing. */
  lemma {:induction false} TrimRightOf(rest: string, post: string)
    requires AllSpace(post)
    requires rest == [] || !IsSpace(rest[|rest| - 1])
    ensures TrimRight(rest + post) == rest
  {
    if post == [] {
      assert rest + post == rest;
    } else {
      var s := rest + post;
      assert s[|s| - 1] == post[|post| - 1];
      assert s[..|s| - 1] == rest + post[..|post| - 1];
      TrimRightOf(rest, post[..|post| - 1]);
    }
  }

  /** Every string is a white-space prefix followed by what `TrimLeft` keeps. */
  lemma {:induction false} TrimLeftSplit(s: string) returns (pre: string)
    ensures s == pre + TrimLeft(s) && AllSpace(pre)
    ensures TrimLeft(s) == [] || !IsSpace(TrimLeft(s)[0])
  {
    if s != [] && IsSpace(s[0]) {
      var p := TrimLeftSplit(s[1..]);
      pre := [s[0]] + p;
      assert s == [s[0]] + s[1..];
    } else {
      pre := [];
      assert s == [] + s;
    }
  }

  /** Every string is what `TrimRight` keeps followed by a white-space suffix. */
  lemma {:induction false} TrimRightSplit(s: string) returns (post: string)
    ensures s == TrimRight(s) + post && AllSpace(post)
    ensures TrimRight(s) == [] || !IsSpace(TrimRight(s)[|TrimRight(s)| - 1])
  {
    if s != [] && IsSpace(s[|s| - 1]) {
      var p := TrimRightSplit(s[..|s| - 1]);
      post := p + [s[|s| - 1]];
      assert s == s[..|s| - 1] + [s[|s| - 1]];
    } else {
      post := [];
      assert s == s + [];
    }
  }

  /** `int()` of text with no white space around it skips the strip. */
  lemma StrippedParse(t: string)
    requires |t| > 0 && !IsSpace(t[0]) && !IsSpace(t[|t| - 1])
    ensures ParseInt(t) == ParseStripped(t)
  {
    StripAround([], t, []);
    assert [] + t + [] == t;
  }

  /** `strip()` removes exactly the white space around a core that starts and ends
      with a non-space character. */
  lemma StripAround(pre: string, core: string, post: string)
    requires AllSpace(pre) && AllSpace(post)
    requires |core| > 0 && !IsSpace(core[0]) && !IsSpace(core[|core| - 1])
    ensures Strip(pre + core + post) == core
  {
    var s := pre + core + post;
    TrimLeftOf(pre, core + post);
    assert pre + (core + post) == s;
    TrimRightOf(core, post);
  }

  lemma StripAllSpace(s: string)
    requires AllSpace(s)
    ensures Strip(s) == []
  {
    TrimLeftOf(s, []);
    assert s + [] == s;
  }

  /** Every string is its stripped core with white space around it. */
  lemma StripSplit(s: string) returns (pre: string, post: string)
    ensures s == pre + Strip(s) + post
    ensures AllSpace(pre) && AllSpace(post)
    ensures Strip(s) == [] || (!IsSpace(Strip(s)[0]) && !IsSpace(Strip(s)[|Strip(s)| - 1]))
  {
    var u := TrimLeft(s);
    pre := TrimLeftSplit(s);
    post := TrimRightSplit(u);
    var core := TrimRight(u);
    assert s == pre + core + post;
    if core != [] && u != [] {
      assert core[0] == u[0];
    }
  }

  /** A non-space character survives `strip()`. */
  lemma StripKeeps(s: string, c: char)
    requires c in s && !IsSpace(c)
    ensures c in Strip(s)
  {
    var pre, post := StripSplit(s);
    SpaceFree(pre, c);
    SpaceFree(post, c);
  }

  lemma TrimLeftKeeps(s: string, c: char)
    requires c in s && !IsSpace(c)
    ensures c in TrimLeft(s)
  {
    var pre := TrimLeftSplit(s);
    SpaceFree(pre, c);
  }

  /** Stripping twice is stripping once. */
  lemma StripStripped(s: string)
    ensures Strip(Strip(s)) == Strip(s)
  {
    var pre, post := StripSplit(s);
    var t := Strip(s);
    if t == [] {
      StripAllSpace(t);
    } else {
      StripAround([], t, []);
      assert [] + t + [] == t;
    }
  }

  /** A digit run is already a stripped, unsigned literal. */
  lemma DecimalParses(d: string)
    requires IsDecimal(d)
    ensures ParseInt(d) == Some(DecimalValue(d))
  {
    StrippedParse(d);
  }

  // ---------------------------------------------------------------------------
  // The properties of the format
  // ---------------------------------------------------------------------------

  /** "%d" never produces white space, a newline or a leading zero (except for 0
      itself), and always ends in a digit. */
  lemma RenderShape(n: int)
    ensures |Render(n)| > 0 && IsDigit(Render(n)[|Render(n)| - 1])
    ensures !IsSpace(Render(n)[0]) && '\n' !in Render(n)
    ensures (Render(n)[0] == '-') == (n < 0)
    ensures n != 0 ==> Render(n)[0] != '0'
  {
    if n < 0 {
      NoNewlineInDigits(Digits(-n));
      assert Render(n) == ['-'] + Digits(-n);
    } else {
      NoNewlineInDigits(Digits(n));
    }
  }

  /** `readline()` and `strip()` turn a written PID file back into the rendered pid. */
  lemma StripPidLine(pid: int)
    ensures Strip(ReadLine(PidLine(pid))) == Render(pid)
  {
    var r := Render(pid);
    RenderShape(pid);
    ReadLineStopsAtNewline(r, []);
    assert r + "\n" + [] == PidLine(pid);
    StripAround([], r, "\n");
    assert [] + r + "\n" == PidLine(pid);
  }

  /** `int()` reads back what "%d" rendered. */
  lemma ParseRendered(pid: int)
    ensures ParseInt(Render(pid)) == Some(pid)
  {
    var r := Render(pid);
    RenderShape(pid);
    StrippedParse(r);
    if pid < 0 {
      var d := Digits(-pid);
      assert r[1..] == d;
      TrimLeftOf([], d);
      assert [] + d == d;
      assert TrimLeft(r[1..]) == d;
      DecimalValueOfDigits(-pid);
    } else {
      DecimalValueOfDigits(pid);
    }
  }

  /** What `write_pid_to_pidfile` writes, `read_pid_from_pidfile` reads back as the
      same pid. */
  lemma RoundTrip(pid: int)
    ensures ParsePid(PidLine(pid)) == Some(pid)
  {
    StripPidLine(pid);
    ParseRendered(pid);
  }

  /** Only the first line counts: whatever follows the first newline is ignored. */
  lemma FirstLineOnly(line: string, rest: string)
    requires '\n' !in line
    ensures ParsePid(line + "\n" + rest) == ParsePid(line)
  {
    ReadLineStopsAtNewline(line, rest);
    var pre, post := StripSplit(line);
    if Strip(line) == [] {
      assert line + "\n" == pre + post + "\n";
      assert AllSpace(line + "\n");
      StripAllSpace(line + "\n");
    } else {
      assert line + "\n" == pre + Strip(line) + (post + "\n");
      StripAround(pre, Strip(line), post + "\n");
    }
  }

  /** White space around the pid, leading zeros, a missing newline and extra lines
      are all accepted. */
  lemma LenientRead(pre: string, zeros: string, n: nat, post: string, tail: string)
    requires AllSpace(pre) && '\n' !in pre
    requires AllZeros(zeros)
    requires AllSpace(post) && '\n' !in post
    requires tail == [] || tail[0] == '\n'
    ensures ParsePid(pre + zeros + Digits(n) + post + tail) == Some(n)
  {
    var d := Digits(n);
    var core := zeros + d;
    var line := pre + core + post;
    assert pre + zeros + d + post + tail == line + tail;
    LeadingZerosIgnored(zeros, d);
    DecimalValueOfDigits(n);
    assert core[|core| - 1] == d[|d| - 1];
    assert IsDigit(core[0]);
    NoNewlineInDigits(core);
    assert '\n' !in line;
    if tail == [] {
      assert line + tail == line;
      StripAround(pre, core, post);
    } else {
      assert line + tail == line + "\n" + tail[1..];
      ReadLineStopsAtNewline(line, tail[1..]);
      assert line + "\n" == pre + core + (post + "\n");
      StripAround(pre, core, post + "\n");
    }
    DecimalParses(core);
  }

  /** A worked case of the lenient read: "  007\n42\n" holds pid 7; the second line
      is ignored even though it is a number too. */
  lemma PaddedPidWithExtraLine(content: string)
    requires content == "  007\n42\n"
    ensures ParsePid(content) == Some(7)
  {
    var seven := Digits(7);
    assert seven == "7";
    assert content == "  " + "00" + seven + "" + "\n42\n";
    LenientRead("  ", "00", 7, "", "\n42\n");
  }

  /** Python 2's `int()` also accepts white space between the sign and the digits. */
  lemma SignThenSpaces(sign: char, gap: string, n: nat)
    requires IsSign(sign) && AllSpace(gap)
    ensures ParseInt([sign] + gap + Digits(n)) == Some(if sign == '-' then -(n as int) else n)
  {
    var d := Digits(n);
    var t := [sign] + gap + d;
    assert t[0] == sign && t[|t| - 1] == d[|d| - 1];
    assert t[1..] == gap + d;
    TrimLeftOf(gap, d);
    assert TrimLeft(t[1..]) == d;
    DecimalValueOfDigits(n);
    assert ParseStripped(t) == Some(if sign == '-' then -(n as int) else n);
    StrippedParse(t);
  }

  /** A first line that is empty or only white space holds no pid. */
  lemma BlankLineHasNoPid(content: string)
    requires AllSpace(ReadLine(content))
    ensures ParsePid(content) == None
  {
    StripAllSpace(ReadLine(content));
    StripAllSpace([]);
  }

  /** A first line with any character that is not white space, a digit or a sign
      holds no pid. */
  lemma ForeignCharacterMeansNoPid(content: string, c: char)
    requires c in ReadLine(content)
    requires !IsSpace(c) && !IsDigit(c) && !IsSign(c)
    ensures ParsePid(content) == None
  {
    var line := Strip(ReadLine(content));
    StripKeeps(ReadLine(content), c);
    StripStripped(ReadLine(content));
    assert Strip(line) == line;
    if IsSign(line[0]) {
      assert line == [line[0]] + line[1..];
      assert c in line[1..];
      TrimLeftKeeps(line[1..], c);
    }
  }

  /** The converse of the parsing lemmas: whatever `int()` accepts after `strip()`
      is an optional sign, white space only after a sign, and decimal digits, and
      its value is theirs. */
  lemma ParseStrippedSound(t: string, v: int) returns (sign: string, gap: string, digits: string)
    requires ParseStripped(t) == Some(v)
    ensures t == sign + gap + digits
    ensures |sign| <= 1 && (sign != [] ==> IsSign(sign[0])) && (sign == [] ==> gap == [])
    ensures AllSpace(gap) && IsDecimal(digits)
    ensures v == (if sign == "-" then -(DecimalValue(digits) as int) else DecimalValue(digits) as int)
  {
    if |t| > 0 && IsSign(t[0]) {
      sign, digits := t[..1], TrimLeft(t[1..]);
      gap := TrimLeftSplit(t[1..]);
      assert t == t[..1] + t[1..];
    } else {
      sign, gap, digits := [], [], t;
    }
  }

  /** Whatever `int()` accepts is white space, an optional sign, white space only
      after a sign, decimal digits and white space, and its value is theirs. */
  lemma ParseIntSound(s: string, v: int) returns (pre: string, sign: string, gap: string, digits: string, post: string)
    requires ParseInt(s) == Some(v)
    ensures s == pre + sign + gap + digits + post
    ensures AllSpace(pre) && AllSpace(post)
    ensures |sign| <= 1 && (sign != [] ==> IsSign(sign[0])) && (sign == [] ==> gap == [])
    ensures AllSpace(gap) && IsDecimal(digits)
    ensures v == (if sign == "-" then -(DecimalValue(digits) as int) else DecimalValue(digits) as int)
  {
    pre, post := StripSplit(s);
    sign, gap, digits := ParseStrippedSound(Strip(s), v);
  }

  /** Whatever pid `read_pid_from_pidfile` finds, the first line of the file has the
      shape `int()` accepts, and the pid is the value of its digits. */
  lemma ParsedLineShape(content: string, v: int) returns (pre: string, sign: string, gap: string, digits: string, post: string)
    requires ParsePid(content) == Some(v)
    ensures ReadLine(content) == pre + sign + gap + digits + post
    ensures AllSpace(pre) && AllSpace(post)
    ensures |sign| <= 1 && (sign != [] ==> IsSign(sign[0])) && (sign == [] ==> gap == [])
    ensures AllSpace(gap) && IsDecimal(digits)
    ensures v == (if sign == "-" then -(DecimalValue(digits) as int) else DecimalValue(digits) as int)
  {
    StripStripped(ReadLine(content));
    pre, sign, gap, digits, post := ParseIntSound(ReadLine(content), v);
  }
  /** `int()` on stripped text accepts an optional sign, white space only after a
      sign, and decimal digits (leading zeros included). */
  lemma StrippedComplete(sign: string, gap: string, digits: string)
    requires |sign| <= 1 && (sign != [] ==> IsSign(sign[0])) && (sign == [] ==> gap == [])
    requires AllSpace(gap) && IsDecimal(digits)
    ensures var core := sign + gap + digits;
      && !IsSpace(core[0]) && !IsSpace(core[|core| - 1])
      && ParseStripped(core) == Some(if sign == "-" then -(DecimalValue(digits) as int) else DecimalValue(digits) as int)
  {
    var core := sign + gap + digits;
    assert core[|core| - 1] == digits[|digits| - 1];
    if sign != [] {
      assert core[0] == sign[0];
      assert core[1..] == gap + digits;
      TrimLeftOf(gap, digits);
    } else {
      assert core == digits;
    }
  }

  /** The converse of `ParseIntSound`: `int()` accepts white space, an optional sign,
      white space only after a sign, decimal digits (leading zeros included) and
      white space, and gives the value of the digits, negated for `-`. */
  lemma ParseIntComplete(pre: string, sign: string, gap: string, digits: string, post: string)
    requires AllSpace(pre) && AllSpace(post)
    requires |sign| <= 1 && (sign != [] ==> IsSign(sign[0])) && (sign == [] ==> gap == [])
    requires AllSpace(gap) && IsDecimal(digits)
    ensures ParseInt(pre + sign + gap + digits + post)
            == Some(if sign == "-" then -(DecimalValue(digits) as int) else DecimalValue(digits) as int)
  {
    var core := sign + gap + digits;
    assert pre + sign + gap + digits + post == pre + core + post;
    StrippedComplete(sign, gap, digits);
    StripAround(pre, core, post);
  }

  /** With no newline in `line`, the pid of `line` followed by nothing or by further
      lines is what `int()` makes of `line`. */
  lemma FirstLineParse(line: string, tail: string)
    requires '\n' !in line
    requires tail == [] || tail[0] == '\n'
    ensures ParsePid(line + tail) == ParseInt(line)
  {
    StripStripped(line);
    if tail != [] {
      assert line + tail == line + "\n" + tail[1..];
      FirstLineOnly(line, tail[1..]);
    } else {
      assert line + tail == line;
    }
  }

  /** The converse of `ParsedLineShape`: a first line of that shape, followed by
      nothing or by further lines, yields the value of its digits as the pid. */
  lemma ParsedLineComplete(pre: string, sign: string, gap: string, digits: string, post: string, tail: string)
    requires AllSpace(pre) && AllSpace(post) && '\n' !in pre && '\n' !in post
    requires |sign| <= 1 && (sign != [] ==> IsSign(sign[0])) && (sign == [] ==> gap == [])
    requires AllSpace(gap) && '\n' !in gap && IsDecimal(digits)
    requires tail == [] || tail[0] == '\n'
    ensures ParsePid(pre + sign + gap + digits + post + tail)
            == Some(if sign == "-" then -(DecimalValue(digits) as int) else DecimalValue(digits) as int)
  {
    var line := pre + sign + gap + digits + post;
    ParseIntComplete(pre, sign, gap, digits, post);
    NoNewlineInDigits(digits);
    assert '\n' !in line;
    FirstLineParse(line, tail);
  }
}
