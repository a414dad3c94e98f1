/**
 * The string operations the bridge relies on, written over `seq<char>`: JavaScript's
 * startsWith, endsWith, includes, indexOf, trim, toLowerCase, split('\n') and
 * join('\n'), the decimal rendering of a number, and the order used to sort paths.
 */
module Text {

  predicate StartsWith(s: string, prefix: string) {
    |prefix| <= |s| && s[..|prefix|] == prefix
  }

  predicate EndsWith(s: string, suffix: string) {
    |suffix| <= |s| && s[|s| - |suffix|..] == suffix
  }

  /** `s.includes(sub)`: sub occurs at some position of s. */
  predicate Contains(s: string, sub: string)
    decreases |s|
  {
    StartsWith(s, sub) || (|s| > 0 && Contains(s[1..], sub))
  }

  /** `s.indexOf(c)`: the first position of c, or -1 when c does not occur. */
  function IndexOf(s: string, c: char): (i: int)
    ensures i == -1 <==> c !in s
    ensures i != -1 ==> 0 <= i < |s| && s[i] == c && forall k | 0 <= k < i :: s[k] != c
  {
    if |s| == 0 then -1
    else if s[0] == c then 0
    else
      var j := IndexOf(s[1..], c);
      if j == -1 then -1 else j + 1
  }

  lemma {:induction false} IndexOfAfter(x: string, c: char, t: string)
    requires c !in x
    ensures IndexOf(x + [c] + t, c) == |x|
  {
    var s := x + [c] + t;
    assert s[|x|] == c;
    assert forall k | 0 <= k < |x| :: s[k] == x[k];
  }

  // ---------------------------------------------------------------------------
  // trim()

  /** The characters ECMAScript's String.prototype.trim removes (WhiteSpace and LineTerminator). */
  predicate IsWhitespace(c: char) {
    c == ' ' || c == '\t' || c == '\n' || c == '\r'
    || c as int == 0x0B || c as int == 0x0C || c as int == 0xA0 || c as int == 0x1680
    || (0x2000 <= c as int <= 0x200A)
    || c as int == 0x2028 || c as int == 0x2029 || c as int == 0x202F || c as int == 0x205F
    || c as int == 0x3000 || c as int == 0xFEFF
  }

  /** sub occurs in s at position i. */
  predicate OccursAt(s: string, sub: string, i: int) {
    0 <= i <= |s| - |sub| && s[i..i + |sub|] == sub
  }

  /** An occurrence found by `Contains` sits at some position of s. */
  lemma {:induction false} ContainsAt(s: string, sub: string)
    ensures Contains(s, sub) ==> exists i :: OccursAt(s, sub, i)
    decreases |s|
  {
    if Contains(s, sub) {
      if StartsWith(s, sub) {
        assert OccursAt(s, sub, 0);
      } else {
        ContainsAt(s[1..], sub);
        var i :| OccursAt(s[1..], sub, i);
        assert s[1..][i..i + |sub|] == s[i + 1..i + 1 + |sub|];
        assert OccursAt(s, sub, i + 1);
      }
    }
  }

  /** The number of whitespace characters at the start of s. */
  function LeadingSpace(s: string): (n: nat)
    ensures n <= |s|
    ensures forall i | 0 <= i < n :: IsWhitespace(s[i])
    ensures n < |s| ==> !IsWhitespace(s[n])
  {
    if |s| > 0 && IsWhitespace(s[0]) then 1 + LeadingSpace(s[1..]) else 0
  }

  /** The number of whitespace characters at the end of s. */
  function TrailingSpace(s: string): (n: nat)
    ensures n <= |s|
    ensures forall i | |s| - n <= i < |s| :: IsWhitespace(s[i])
    ensures n < |s| ==> !IsWhitespace(s[|s| - 1 - n])
  {
    if |s| > 0 && IsWhitespace(s[|s| - 1]) then 1 + TrailingSpace(s[..|s| - 1]) else 0
  }

  /** `s.trim()`: s without its leading and trailing whitespace. */
  function Trim(s: string): (r: string)
    ensures LeadingSpace(s) + |r| <= |s|
    ensures r == s[LeadingSpace(s)..LeadingSpace(s) + |r|]
    ensures r == [] <==> forall i | 0 <= i < |s| :: IsWhitespace(s[i])
    ensures r != [] ==> !IsWhitespace(r[0]) && !IsWhitespace(r[|r| - 1])
    ensures forall i | LeadingSpace(s) + |r| <= i < |s| :: IsWhitespace(s[i])
  {
    var n := LeadingSpace(s);
    var t := s[n..];
    if t == [] then
      t
    else
      assert !IsWhitespace(t[0]);
      TrailingOfSuffix(s, n);
      t[..|t| - TrailingSpace(t)]
  }

  /** What the trailing whitespace of s[n..] covers in s is whitespace. */
  lemma {:induction false} TrailingOfSuffix(s: string, n: nat)
    requires n <= |s|
    ensures forall i | |s| - TrailingSpace(s[n..]) <= i < |s| :: IsWhitespace(s[i])
  {
    var t := s[n..];
    forall i | |s| - TrailingSpace(t) <= i < |s| ensures IsWhitespace(s[i]) {
      assert s[i] == t[i - n];
    }
  }

  // ---------------------------------------------------------------------------
  // toLowerCase()

  function LowerChar(c: char): char {
    if 'A' <= c <= 'Z' then (c as int + 32) as char else c
  }

  /** `s.toLowerCase()` on the ASCII letters. */
  function ToLower(s: string): (r: string)
    ensures |r| == |s|
    ensures forall i | 0 <= i < |s| :: r[i] == LowerChar(s[i])
  {
    seq(|s|, i requires 0 <= i < |s| => LowerChar(s[i]))
  }

  predicate IsUpper(c: char) {
    'A' <= c <= 'Z'
  }

  /**
   * Lower-casing leaves no capital letter, keeps a text without capitals as it is, and
   * so changes nothing when applied a second time.
   */
  lemma {:induction false} LowerCased(s: string)
    ensures forall i | 0 <= i < |s| :: !IsUpper(ToLower(s)[i])
    ensures (forall i | 0 <= i < |s| :: !IsUpper(s[i])) ==> ToLower(s) == s
    ensures ToLower(ToLower(s)) == ToLower(s)
  {
    var r := ToLower(s);
    forall i | 0 <= i < |s| ensures !IsUpper(r[i]) {
      if IsUpper(s[i]) {
        assert 'a' <= r[i] <= 'z';
      }
    }
    forall i | 0 <= i < |r| ensures LowerChar(r[i]) == r[i] {
      assert !IsUpper(r[i]);
    }
  }

  // ---------------------------------------------------------------------------
  // split('\n') and join('\n')

  /** The newline-terminated lines of s, in order, without their terminators. */
  function CompleteLines(s: string): (lines: seq<string>)
    ensures forall k | 0 <= k < |lines| :: '\n' !in lines[k]
    decreases |s|
  {
    var i := IndexOf(s, '\n');
    if i == -1 then [] else [s[..i]] + CompleteLines(s[i + 1..])
  }

  /** The text after the last newline of s; all of s when it has no newline. */
  function PartialLine(s: string): (rest: string)
    ensures '\n' !in rest
    ensures |rest| <= |s|
    decreases |s|
  {
    var i := IndexOf(s, '\n');
    if i == -1 then s else PartialLine(s[i + 1..])
  }

  /** `s.split('\n')`: the complete lines followed by the partial last one. */
  function Split(s: string): (parts: seq<string>)
    ensures |parts| >= 1
  {
    CompleteLines(s) + [PartialLine(s)]
  }

  /** No piece of a split holds a newline. */
  lemma {:induction false} SplitLines(s: string)
    ensures NoNewlines(Split(s))
  {
    var parts := Split(s);
    forall k | 0 <= k < |parts| ensures '\n' !in parts[k] {
      if k == |parts| - 1 {
        assert parts[k] == PartialLine(s);
      } else {
        assert parts[k] == CompleteLines(s)[k];
      }
    }
  }

  /** Each line followed by one newline. */
  function Terminated(lines: seq<string>): string
  {
    if lines == [] then "" else lines[0] + "\n" + Terminated(lines[1..])
  }

  /** `lines.join('\n')`. */
  function Join(lines: seq<string>): string
  {
    if |lines| == 0 then ""
    else if |lines| == 1 then lines[0]
    else lines[0] + "\n" + Join(lines[1..])
  }

  predicate NoNewlines(lines: seq<string>) {
    forall k | 0 <= k < |lines| :: '\n' !in lines[k]
  }

  /** Cutting s into lines loses nothing: the lines, re-terminated, followed by the rest, are s. */
  lemma {:induction false} LinesRoundTrip(s: string)
    ensures Terminated(CompleteLines(s)) + PartialLine(s) == s
    decreases |s|
  {
    var i := IndexOf(s, '\n');
    if i != -1 {
      var head, t := s[..i], s[i + 1..];
      LinesRoundTrip(t);
      var lines := CompleteLines(s);
      assert lines[0] == head && lines[1..] == CompleteLines(t);
      TerminatedCons(lines, PartialLine(t));
      CutAt(s, i);
    }
  }

  /** A string is what comes before a newline in it, the newline, and what comes after. */
  lemma {:induction false} CutAt(s: string, i: nat)
    requires i < |s| && s[i] == '\n'
    ensures s == s[..i] + "\n" + s[i + 1..]
  {
    assert s == s[..i] + [s[i]] + s[i + 1..];
  }

  /** A newline-free line followed by a newline is cut off as the first complete line. */
  lemma {:induction false} CutLine(x: string, rest: string)
    requires '\n' !in x
    ensures CompleteLines(x + "\n" + rest) == [x] + CompleteLines(rest)
    ensures PartialLine(x + "\n" + rest) == PartialLine(rest)
  {
    var s := x + "\n" + rest;
    IndexOfAfter(x, '\n', rest);
    assert s[..|x|] == x;
    assert s[|x| + 1..] == rest;
  }

  lemma {:induction false} AppendAssoc<T>(a: seq<T>, b: seq<T>, c: seq<T>)
    ensures (a + b) + c == a + (b + c)
  {
  }

  /** One more element of s extends a prefix of it, and whatever precedes that prefix. */
  lemma {:induction false} PrefixStep<T>(pre: seq<T>, s: seq<T>, i: nat)
    requires i < |s|
    ensures s[..i + 1] == s[..i] + [s[i]]
    ensures (pre + s[..i]) + [s[i]] == pre + s[..i + 1]
  {
    assert s[..i + 1] == s[..i] + [s[i]];
    AppendAssoc(pre, s[..i], [s[i]]);
  }

  /** Dropping the last element of a + b, for b non-empty, drops it from b. */
  lemma {:induction false} InitOfAppend<T>(a: seq<T>, b: seq<T>)
    requires b != []
    ensures (a + b)[..|a + b| - 1] == a + b[..|b| - 1]
    ensures (a + b)[|a + b| - 1] == b[|b| - 1]
  {
  }

  lemma {:induction false} InitLast<T>(s: seq<T>)
    requires s != []
    ensures s == s[..|s| - 1] + [s[|s| - 1]]
  {
  }

  lemma {:induction false} ConsConcat<T>(xs: seq<T>, ys: seq<T>)
    requires xs != []
    ensures xs + ys == [xs[0]] + (xs[1..] + ys)
  {
    assert xs == [xs[0]] + xs[1..];
  }

  lemma {:induction false} TerminatedCons(lines: seq<string>, t: string)
    requires lines != []
    ensures Terminated(lines) + t == lines[0] + "\n" + (Terminated(lines[1..]) + t)
  {
  }

  /** Lines that carry no newline are cut back out of their terminated form, whatever follows. */
  lemma {:induction false} LinesOfTerminated(lines: seq<string>, t: string)
    requires NoNewlines(lines)
    ensures CompleteLines(Terminated(lines) + t) == lines + CompleteLines(t)
    ensures PartialLine(Terminated(lines) + t) == PartialLine(t)
  {
    if lines == [] {
      assert Terminated(lines) == "";
      assert Terminated(lines) + t == t;
    } else {
      var head, tail := lines[0], lines[1..];
      var rest := Terminated(tail) + t;
      assert '\n' !in head;
      forall k | 0 <= k < |tail| ensures '\n' !in tail[k] {
        assert tail[k] == lines[k + 1];
      }
      LinesOfTerminated(tail, t);
      TerminatedCons(lines, t);
      CutLine(head, rest);
      ConsConcat(lines, CompleteLines(t));
    }
  }

  /** A single newline-free line followed by a newline is one complete line and no rest. */
  lemma {:induction false} FrameOfLine(line: string)
    requires '\n' !in line
    ensures CompleteLines(line + "\n") == [line]
    ensures PartialLine(line + "\n") == ""
  {
    assert Terminated([line]) + "" == line + "\n";
    LinesOfTerminated([line], "");
    assert IndexOf("", '\n') == -1;
  }

  /**
   * Feeding a then b is feeding a + b: the lines cut from a, then those cut from what a
   * left over followed by b, are the lines of a + b, and the leftover is the same.
   */
  lemma {:induction false} CompleteLinesAppend(a: string, b: string)
    ensures CompleteLines(a + b) == CompleteLines(a) + CompleteLines(PartialLine(a) + b)
    ensures PartialLine(a + b) == PartialLine(PartialLine(a) + b)
  {
    var lines, rest := CompleteLines(a), PartialLine(a);
    LinesRoundTrip(a);
    AppendAssoc(Terminated(lines), rest, b);
    LinesOfTerminated(lines, rest + b);
  }

  lemma {:induction false} JoinOfTerminated(lines: seq<string>, last: string)
    ensures Join(lines + [last]) == Terminated(lines) + last
  {
    if lines != [] {
      JoinOfTerminated(lines[1..], last);
      assert (lines + [last])[1..] == lines[1..] + [last];
    }
  }

  /** `s.split('\n').join('\n') == s`. */
  lemma {:induction false} JoinSplit(s: string)
    ensures Join(Split(s)) == s
  {
    JoinOfTerminated(CompleteLines(s), PartialLine(s));
    LinesRoundTrip(s);
  }

  /** Newline-free lines joined with newlines split back into the same lines. */
  lemma {:induction false} SplitJoin(lines: seq<string>)
    requires |lines| >= 1 && NoNewlines(lines)
    ensures Split(Join(lines)) == lines
  {
    var init, last := lines[..|lines| - 1], lines[|lines| - 1];
    InitLast(lines);
    JoinOfTerminated(init, last);
    assert Join(lines) == Terminated(init) + last;
    forall k | 0 <= k < |init| ensures '\n' !in init[k] {
      assert init[k] == lines[k];
    }
    LinesOfTerminated(init, last);
    assert IndexOf(last, '\n') == -1;
    assert CompleteLines(last) == [] && PartialLine(last) == last;
    assert Split(Join(lines)) == (init + []) + [last];
    assert init + [] == init;
  }

  // ---------------------------------------------------------------------------
  // Decimal rendering of a number (template literals such as `TS${code}`)

  function DigitChar(d: nat): (c: char)
    requires d < 10
    ensures '0' <= c <= '9' && c as int - '0' as int == d
  {
    (d + '0' as int) as char
  }

  predicate IsDigits(s: string) {
    forall i | 0 <= i < |s| :: '0' <= s[i] <= '9'
  }

  /** The decimal digits of n, most significant first, without leading zeros. */
  function Decimal(n: nat): (r: string)
    ensures |r| >= 1 && IsDigits(r)
    ensures |r| > 1 ==> r[0] != '0'
  {
    if n < 10 then [DigitChar(n)] else Decimal(n / 10) + [DigitChar(n % 10)]
  }

  /** A JavaScript integer in a template literal: a minus sign before negative values. */
  function IntText(i: int): (r: string)
    ensures |r| >= 1
    ensures i >= 0 ==> r == Decimal(i)
    ensures i < 0 ==> r == "-" + Decimal(-i)
  {
    if i < 0 then "-" + Decimal(-i) else Decimal(i)
  }

  /**
   * Reading back a rendered integer gives it: the text starts with a minus sign exactly
   * when the number is negative, and the digits after it denote the magnitude.
   */
  lemma {:induction false} IntTextRoundTrip(i: int)
    ensures var r := IntText(i);
            (r[0] == '-' <==> i < 0)
            && (i < 0 ==> IsDigits(r[1..]) && DigitsValue(r[1..]) == -i)
            && (i >= 0 ==> IsDigits(r) && DigitsValue(r) == i)
  {
    var r := IntText(i);
    if i < 0 {
      assert r[1..] == Decimal(-i);
      DecimalRoundTrip(-i);
    } else {
      DecimalRoundTrip(i);
    }
  }

  /** The number a string of decimal digits denotes. */
  function DigitsValue(s: string): nat
    requires IsDigits(s)
  {
    if s == [] then 0
    else 10 * DigitsValue(s[..|s| - 1]) + (s[|s| - 1] as int - '0' as int)
  }

  /** Reading back the decimal rendering of n gives n. */
  lemma {:induction false} DecimalRoundTrip(n: nat)
    ensures DigitsValue(Decimal(n)) == n
  {
    if n >= 10 {
      DecimalRoundTrip(n / 10);
      var r := Decimal(n);
      assert r[..|r| - 1] == Decimal(n / 10);
    }
  }

  // ---------------------------------------------------------------------------
  // Ordering of strings

  /** Lexicographic order on code points (a stand-in for `localeCompare`). */
  predicate LexLe(a: string, b: string)
    decreases |a|
  {
    a == [] || (b != [] && (a[0] < b[0] || (a[0] == b[0] && LexLe(a[1..], b[1..]))))
  }

  /** `a.localeCompare(b)` on code points: negative, zero or positive. */
  function LexCompare(a: string, b: string): (c: int)
    ensures -1 <= c <= 1
    decreases |a|
  {
    if a == [] && b == [] then 0
    else if a == [] then -1
    else if b == [] then 1
    else if a[0] < b[0] then -1
    else if a[0] > b[0] then 1
    else LexCompare(a[1..], b[1..])
  }

  /** The comparison is zero exactly for equal strings, and at most zero exactly when a may come first. */
  lemma {:induction false} LexCompareAgrees(a: string, b: string)
    ensures LexCompare(a, b) == 0 <==> a == b
    ensures LexCompare(a, b) <= 0 <==> LexLe(a, b)
    decreases |a|
  {
    if a != [] && b != [] && a[0] == b[0] {
      LexCompareAgrees(a[1..], b[1..]);
      assert a == [a[0]] + a[1..] && b == [b[0]] + b[1..];
    }
  }

  lemma {:induction false} LexTotal(a: string, b: string)
    ensures LexLe(a, b) || LexLe(b, a)
    decreases |a|
  {
    if a != [] && b != [] && a[0] == b[0] {
      LexTotal(a[1..], b[1..]);
    }
  }

  lemma {:induction false} LexTransitive(a: string, b: string, c: string)
    requires LexLe(a, b) && LexLe(b, c)
    ensures LexLe(a, c)
    decreases |a|
  {
    if a != [] && a[0] == b[0] && b[0] == c[0] {
      LexTransitive(a[1..], b[1..], c[1..]);
    }
  }

  lemma {:induction false} LexAntisymmetric(a: string, b: string)
    requires LexLe(a, b) && LexLe(b, a)
    ensures a == b
    decreases |a|
  {
    if a != [] {
      LexAntisymmetric(a[1..], b[1..]);
      assert a == [a[0]] + a[1..] && b == [b[0]] + b[1..];
    }
  }
}
