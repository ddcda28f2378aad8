/**
 * Text helpers shared by the server model: decimal digits and zero padding
 * (Python's `:02d` format), ASCII lower-casing (`str.lower()` restricted to
 * ASCII), prefixes, and newline joining and splitting (`"\n".join`).
 */
module Text {

  predicate IsDigit(c: char) {
    '0' <= c <= '9'
  }

  predicate AllDigits(s: string) {
    forall i :: 0 <= i < |s| ==> IsDigit(s[i])
  }

  function DigitChar(d: nat): (c: char)
    requires d < 10
    ensures IsDigit(c)
  {
    (48 + d) as char
  }

  /** The value of a digit character; other characters count as zero. */
  function DigitValue(c: char): (d: nat)
    ensures d < 10
    ensures IsDigit(c) ==> DigitChar(d) == c
  {
    if IsDigit(c) then c as int - 48 else 0
  }

  /** The decimal text of `n` without leading zeros, as Python's `str(n)`. */
  function Decimal(n: nat): (r: string)
    ensures |r| >= 1
  {
    if n < 10 then [DigitChar(n)] else Decimal(n / 10) + [DigitChar(n % 10)]
  }

  /** The value of a digit string, most significant digit first. */
  function ParseDecimal(s: string): nat {
    if s == [] then 0 else ParseDecimal(s[..|s| - 1]) * 10 + DigitValue(s[|s| - 1])
  }

  function Zeros(k: nat): (r: string)
    ensures |r| == k
  {
    if k == 0 then [] else Zeros(k - 1) + ['0']
  }

  /** `n` written in at least `width` digits, padded on the left with zeros (Python `f"{n:0{width}d}"`). */
  function Pad(n: nat, width: nat): (r: string)
    ensures |r| >= width
  {
    var d := Decimal(n);
    if |d| < width then Zeros(width - |d|) + d else d
  }

  function Pow10(k: nat): (p: nat)
    ensures p >= 1
  {
    if k == 0 then 1 else 10 * Pow10(k - 1)
  }

  lemma {:induction false} DecimalDigits(n: nat)
    ensures AllDigits(Decimal(n))
  {
    if n >= 10 {
      DecimalDigits(n / 10);
    }
  }

  lemma {:induction false} ZerosDigits(k: nat)
    ensures AllDigits(Zeros(k))
  {
    if k > 0 {
      ZerosDigits(k - 1);
    }
  }

  lemma PadDigits(n: nat, width: nat)
    ensures AllDigits(Pad(n, width)) && NoNewline(Pad(n, width))
  {
    DecimalDigits(n);
    if |Decimal(n)| < width {
      ZerosDigits(width - |Decimal(n)|);
    }
    DigitsHaveNoNewline(Pad(n, width));
  }

  lemma DigitsHaveNoNewline(s: string)
    requires AllDigits(s)
    ensures NoNewline(s)
  {
  }

  lemma {:induction false} ParseDecimalOfDecimal(n: nat)
    ensures ParseDecimal(Decimal(n)) == n
  {
    var d := Decimal(n);
    if n >= 10 {
      ParseDecimalOfDecimal(n / 10);
      assert d[..|d| - 1] == Decimal(n / 10);
    }
  }

  /** Leading zeros contribute nothing to the value. */
  lemma {:induction false} ParseDecimalIgnoresZeros(k: nat, s: string)
    ensures ParseDecimal(Zeros(k) + s) == ParseDecimal(s)
    decreases |s|, k
  {
    var z := Zeros(k) + s;
    if s == [] {
      assert z == Zeros(k);
      if k > 0 {
        assert z[..|z| - 1] == Zeros(k - 1) + [];
        ParseDecimalIgnoresZeros(k - 1, []);
      }
    } else {
      assert z[..|z| - 1] == Zeros(k) + s[..|s| - 1];
      ParseDecimalIgnoresZeros(k, s[..|s| - 1]);
    }
  }

  /** Zero padding loses nothing: the padded text still denotes `n`. */
  lemma {:induction false} PadRoundTrip(n: nat, width: nat)
    ensures ParseDecimal(Pad(n, width)) == n
  {
    var d := Decimal(n);
    ParseDecimalOfDecimal(n);
    if |d| < width {
      assert Pad(n, width) == Zeros(width - |d|) + d;
      ParseDecimalIgnoresZeros(width - |d|, d);
    }
  }

  lemma PadInjective(a: nat, b: nat, width: nat)
    ensures Pad(a, width) == Pad(b, width) ==> a == b
  {
    PadRoundTrip(a, width);
    PadRoundTrip(b, width);
  }

  /** `n` needs at most `k` digits exactly when it is below `10^k`. */
  lemma {:induction false} DecimalLength(n: nat, k: nat)
    requires k >= 1
    ensures |Decimal(n)| <= k <==> n < Pow10(k)
  {
    if n >= 10 && k > 1 {
      DecimalLength(n / 10, k - 1);
    }
  }

  /** The padded text has exactly `width` digits exactly when `n` fits in `width` digits. */
  lemma PadLength(n: nat, width: nat)
    requires width >= 1
    ensures |Pad(n, width)| >= width
    ensures |Pad(n, width)| == width <==> n < Pow10(width)
  {
    DecimalLength(n, width);
  }

  function LowerChar(c: char): (r: char)
    ensures 'A' <= c <= 'Z' ==> r as int == c as int + 32
    ensures !('A' <= c <= 'Z') ==> r == c
  {
    if 'A' <= c <= 'Z' then (c as int + 32) as char else c
  }

  /** ASCII lower-casing, character by character; the length never changes. */
  function Lower(s: string): (r: string)
    ensures |r| == |s|
    ensures forall i :: 0 <= i < |s| ==> r[i] == LowerChar(s[i])
  {
    if s == [] then [] else [LowerChar(s[0])] + Lower(s[1..])
  }

  lemma LowerIdempotent(s: string)
    ensures Lower(Lower(s)) == Lower(s)
  {
  }

  /** A text without upper-case ASCII letters is its own lower-case form. */
  lemma LowerFixed(s: string)
    requires forall i :: 0 <= i < |s| ==> !('A' <= s[i] <= 'Z')
    ensures Lower(s) == s
  {
    assert forall i :: 0 <= i < |s| ==> Lower(s)[i] == s[i];
  }

  predicate StartsWith(s: string, prefix: string) {
    |prefix| <= |s| && s[..|prefix|] == prefix
  }

  predicate EndsWith(s: string, suffix: string) {
    |suffix| <= |s| && s[|s| - |suffix|..] == suffix
  }

  predicate NoNewline(s: string) {
    '\n' !in s
  }

  /** Python's `"\n".join(parts)`. */
  function Join(parts: seq<string>): (r: string)
    ensures |parts| >= 1 ==> EndsWith(r, parts[|parts| - 1])
  {
    if |parts| == 0 then ""
    else if |parts| == 1 then parts[0]
    else Join(parts[..|parts| - 1]) + "\n" + parts[|parts| - 1]
  }

  /** Python's `s.split("\n")`: the pieces between newlines, always at least one. */
  function Split(s: string): (r: seq<string>)
    ensures |r| >= 1
  {
    if s == [] then [""] else Extend(Split(s[..|s| - 1]), s[|s| - 1])
  }

  /** The pieces after one more character: a newline opens a new piece, anything else extends the last. */
  function Extend(p: seq<string>, c: char): (r: seq<string>)
    requires |p| >= 1
    ensures |r| >= 1
  {
    if c == '\n' then p + [""] else p[..|p| - 1] + [p[|p| - 1] + [c]]
  }

  /** `Split` one character at a time. */
  lemma SplitSnoc(w: string, c: char)
    ensures Split(w + [c]) == Extend(Split(w), c)
  {
    assert (w + [c])[..|w|] == w;
  }

  /** A character other than a newline extends the last piece. */
  lemma ExtendLast(front: seq<string>, a: string, c: char)
    requires c != '\n'
    ensures Extend(front + [a], c) == front + [a + [c]]
  {
    var p := front + [a];
    assert p[..|p| - 1] == front;
  }

  /** Text without a newline is a single piece. */
  lemma {:induction false} SplitNoNewline(x: string)
    requires NoNewline(x)
    ensures Split(x) == [x]
    decreases |x|
  {
    if x != [] {
      var y, last := x[..|x| - 1], x[|x| - 1];
      assert x == y + [last];
      assert NoNewline(y) by { assert forall i :: 0 <= i < |y| ==> y[i] == x[i]; }
      assert last != '\n' by { assert x[|x| - 1] in x; }
      SplitNoNewline(y);
      SplitSnoc(y, last);
      ExtendLast([], y, last);
    }
  }

  /** Text without a newline extends the last piece. */
  lemma SplitAppend(s: string, x: string)
    requires NoNewline(x)
    ensures var p := Split(s);
            Split(s + x) == p[..|p| - 1] + [p[|p| - 1] + x]
  {
    SplitNoNewline(x);
    SplitConcat(s, x);
    assert Split(x)[1..] == [];
  }

  /** A newline opens a new, empty piece. */
  lemma SplitNewline(s: string)
    ensures Split(s + "\n") == Split(s) + [""]
  {
    SplitSnoc(s, '\n');
  }

  /** One more character after a concatenation: the sequence reasoning of `SplitConcat`, without `Split`. */
  lemma GlueStep(front: seq<string>, a: string, q: seq<string>, c: char)
    requires |q| >= 1
    ensures Extend(front + [a + q[0]] + q[1..], c) == front + [a + Extend(q, c)[0]] + Extend(q, c)[1..]
  {
    var r := front + [a + q[0]] + q[1..];
    if c == '\n' {
      assert (q + [""])[1..] == q[1..] + [""];
    } else if |q| == 1 {
      assert r == front + [a + q[0]];
      assert (a + q[0]) + [c] == a + (q[0] + [c]);
    } else {
      var q' := q[..|q| - 1] + [q[|q| - 1] + [c]];
      assert q'[0] == q[0];
      assert q'[1..] == q[1..|q| - 1] + [q[|q| - 1] + [c]];
      assert r[..|r| - 1] == front + [a + q[0]] + q[1..|q| - 1];
      assert r[|r| - 1] == q[|q| - 1];
    }
  }

  /** Splitting a concatenation glues the last piece of the left to the first piece of the right. */
  lemma {:induction false} SplitConcat(s: string, t: string)
    ensures var p, q := Split(s), Split(t);
            Split(s + t) == p[..|p| - 1] + [p[|p| - 1] + q[0]] + q[1..]
    decreases |t|
  {
    var p := Split(s);
    var n := |p|;
    if t == [] {
      assert s + t == s;
      assert p[n - 1] + "" == p[n - 1];
      assert p[..n - 1] + [p[n - 1]] == p;
    } else {
      var t' := t[..|t| - 1];
      var c := t[|t| - 1];
      var q' := Split(t');
      assert t == t' + [c];
      SplitSnoc(t', c);
      assert s + t == (s + t') + [c];
      SplitSnoc(s + t', c);
      SplitConcat(s, t');
      GlueStep(p[..n - 1], p[n - 1], q', c);
    }
  }

  /** One line of text and its newline: the line, then an empty piece. */
  lemma SplitLine(x: string)
    requires NoNewline(x)
    ensures Split(x + "\n") == [x, ""]
  {
    SplitNoNewline(x);
    SplitNewline(x);
  }

  /** Each line followed by a newline, as a loop of `text += line + "\n"` builds it. */
  function Terminated(lines: seq<string>): string {
    if lines == [] then "" else Terminated(lines[..|lines| - 1]) + lines[|lines| - 1] + "\n"
  }

  /** Regrouping a concatenation of four texts. */
  lemma Regroup(a: string, b: string, c: string, d: string)
    ensures a + b + c + d == a + (b + c + d)
  {
  }

  lemma TerminatedSnoc(lines: seq<string>, i: nat)
    requires i < |lines|
    ensures Terminated(lines[..i + 1]) == Terminated(lines[..i]) + lines[i] + "\n"
  {
    assert lines[..i + 1][..i] == lines[..i];
  }

  /** Text appended to an empty last piece becomes that piece. */
  lemma GlueEmpty(front: seq<string>, x: string)
    ensures var p := front + [""];
            p[..|p| - 1] + [p[|p| - 1] + x] == front + [x]
  {
    var p := front + [""];
    assert p[..|p| - 1] == front;
    assert p[|p| - 1] + x == x;
  }

  /** A newline then text without one adds that text as a piece of its own. */
  lemma SplitAfterNewline(w: string, x: string)
    requires NoNewline(x)
    ensures Split(w + "\n" + x) == Split(w) + [x]
  {
    SplitNewline(w);
    SplitAppend(w + "\n", x);
    GlueEmpty(Split(w), x);
  }

  /** One more line and its newline after `before`. */
  lemma SplitLineAfter(before: string, line: string)
    requires NoNewline(line)
    ensures var p := Split(before);
            Split(before + line + "\n") == p[..|p| - 1] + [p[|p| - 1] + line] + [""]
  {
    SplitNewline(before + line);
    SplitAppend(before, line);
  }

  /** A header line and newline-terminated lines split back into the header, the lines and an empty tail. */
  lemma {:induction false} SplitTerminated(header: string, lines: seq<string>)
    requires NoNewline(header)
    requires forall i :: 0 <= i < |lines| ==> NoNewline(lines[i])
    ensures Split(header + "\n" + Terminated(lines)) == [header] + lines + [""]
  {
    if lines == [] {
      SplitLine(header);
      assert header + "\n" + Terminated(lines) == header + "\n";
    } else {
      var n := |lines|;
      var init, line := lines[..n - 1], lines[n - 1];
      assert init + [line] == lines;
      SplitTerminated(header, init);
      var before := header + "\n" + Terminated(init);
      assert header + "\n" + Terminated(lines) == before + line + "\n";
      SplitLineAfter(before, line);
      GlueEmpty([header] + init, line);
      assert [header] + init + [line] == [header] + lines;
    }
  }

  /** A text ends with `suffix` when it is something followed by `suffix`, and not when their last characters differ. */
  lemma EndsWithLast(front: string, back: string, suffix: string)
    requires |back| >= 1 && |suffix| >= 1
    ensures back == suffix ==> EndsWith(front + back, suffix)
    ensures back[|back| - 1] != suffix[|suffix| - 1] ==> !EndsWith(front + back, suffix)
  {
    var s := front + back;
    if EndsWith(s, suffix) {
      assert s[|s| - 1] == suffix[|suffix| - 1];
    }
    if back == suffix {
      assert s[|s| - |suffix|..] == suffix;
    }
  }

  /** Splitting undoes joining when no part holds a newline. */
  lemma {:induction false} SplitJoin(parts: seq<string>)
    requires |parts| >= 1
    requires forall i :: 0 <= i < |parts| ==> NoNewline(parts[i])
    ensures Split(Join(parts)) == parts
  {
    var n := |parts|;
    if n == 1 {
      SplitNoNewline(parts[0]);
    } else {
      var init, last := parts[..n - 1], parts[n - 1];
      assert init + [last] == parts;
      SplitJoin(init);
      SplitAfterNewline(Join(init), last);
    }
  }
}
