/**
 * The JavaScript string primitives the exporter relies on, over `seq<char>`:
 * `trim`, `split('\n')`, `join('\n')`, `includes`, `startsWith`/`endsWith`,
 * ASCII `toLowerCase`, `String(n)` for integers, `padStart(2, '0')` and
 * `parseInt` without a radix.
 */
module JsString {
  import opened Wrappers

  /** ECMAScript WhiteSpace and LineTerminator code points: what `trim` removes. */
  predicate IsWhitespace(c: char) {
    || c == ' ' || c == '\t' || c == '\n' || c == '\r'
    || c == '\U{000B}' || c == '\U{000C}' || c == '\U{00A0}' || c == '\U{1680}'
    || ('\U{2000}' <= c <= '\U{200A}')
    || c == '\U{2028}' || c == '\U{2029}' || c == '\U{202F}' || c == '\U{205F}'
    || c == '\U{3000}' || c == '\U{FEFF}'
  }

  predicate AllWhitespace(s: string) {
    forall i :: 0 <= i < |s| ==> IsWhitespace(s[i])
  }

  /** `s.trimStart()`: the suffix left after dropping leading whitespace. */
  function TrimStart(s: string): (r: string)
    ensures |r| <= |s|
  {
    if s != [] && IsWhitespace(s[0]) then TrimStart(s[1..]) else s
  }

  /** What `TrimStart` leaves: a suffix of `s`, after only whitespace, that does not start with whitespace. */
  lemma {:induction false} TrimStartShape(s: string)
    ensures TrimStart(s) == s[|s| - |TrimStart(s)|..]
    ensures AllWhitespace(s[..|s| - |TrimStart(s)|])
    ensures TrimStart(s) == [] || !IsWhitespace(TrimStart(s)[0])
  {
    if s != [] && IsWhitespace(s[0]) {
      var r := TrimStart(s[1..]);
      TrimStartShape(s[1..]);
      assert s[..|s| - |r|][1..] == s[1..][..|s| - 1 - |r|];
    }
  }

  /** `s.trimEnd()`: the prefix left after dropping trailing whitespace. */
  function TrimEnd(s: string): (r: string)
    ensures |r| <= |s|
  {
    if s != [] && IsWhitespace(s[|s| - 1]) then TrimEnd(s[..|s| - 1]) else s
  }

  /** What `TrimEnd` leaves: a prefix of `s`, before only whitespace, that does not end with whitespace. */
  lemma {:induction false} TrimEndShape(s: string)
    ensures TrimEnd(s) == s[..|TrimEnd(s)|]
    ensures AllWhitespace(s[|TrimEnd(s)|..])
    ensures TrimEnd(s) == [] || !IsWhitespace(TrimEnd(s)[|TrimEnd(s)| - 1])
  {
    if s != [] && IsWhitespace(s[|s| - 1]) {
      var r := TrimEnd(s[..|s| - 1]);
      TrimEndShape(s[..|s| - 1]);
      assert s[|r|..] == s[..|s| - 1][|r|..] + [s[|s| - 1]];
    }
  }

  /** `s.trim()`: `TrimEnds` says what it drops, `TrimPiece` where it sits in `s`. */
  function Trim(s: string): (r: string)
    ensures |r| <= |s|
  {
    TrimEnd(TrimStart(s))
  }

  /** The trimmed string has no whitespace at either end. */
  lemma TrimEnds(s: string)
    ensures Trim(s) == [] || (!IsWhitespace(Trim(s)[0]) && !IsWhitespace(Trim(s)[|Trim(s)| - 1]))
  {
    TrimStartShape(s);
    TrimEndShape(TrimStart(s));
  }

  /** `s.trim()` is a contiguous piece of `s`, after the leading whitespace and with only whitespace after it. */
  lemma TrimPiece(s: string) returns (i: nat)
    ensures i == |s| - |TrimStart(s)| && i + |Trim(s)| <= |s|
    ensures OccursAt(s, Trim(s), i)
    ensures AllWhitespace(s[..i]) && AllWhitespace(s[i + |Trim(s)|..])
  {
    i := |s| - |TrimStart(s)|;
    TrimStartShape(s);
    TrimEndShape(TrimStart(s));
    PrefixOfSuffix(s, TrimStart(s), Trim(s));
  }

  /** A prefix `r` of a suffix `t` of `s` sits in `s` where `t` starts. */
  lemma PrefixOfSuffix(s: string, t: string, r: string)
    requires |t| <= |s| && t == s[|s| - |t|..] && |r| <= |t| && r == t[..|r|]
    requires AllWhitespace(s[..|s| - |t|]) && AllWhitespace(t[|r|..])
    ensures OccursAt(s, r, |s| - |t|)
    ensures AllWhitespace(s[|s| - |t| + |r|..])
  {
    var i := |s| - |t|;
    forall k | 0 <= k < |r| ensures s[i + k] == r[k] {
      assert r[k] == t[k];
    }
    assert s[i..i + |r|] == r;
    assert s[i + |r|..] == t[|r|..];
  }

  lemma {:induction false} TrimStartOfNonWhitespaceStart(s: string)
    requires s != [] && !IsWhitespace(s[0])
    ensures TrimStart(s) == s
  {
  }

  /** Whitespace appended after a string does not survive `trim`. */
  lemma {:induction false} TrimIgnoresTrailingWhitespace(s: string, w: string)
    requires AllWhitespace(w)
    ensures Trim(s + w) == Trim(s)
  {
    TrimStartAppend(s, w);
    if TrimStart(s) == [] {
      assert TrimStart(s + w) == [];
    } else {
      assert TrimStart(s + w) == TrimStart(s) + w;
      TrimEndAppend(TrimStart(s), w);
    }
  }

  lemma {:induction false} TrimStartAppend(s: string, w: string)
    requires AllWhitespace(w)
    ensures TrimStart(s) == [] ==> TrimStart(s + w) == []
    ensures TrimStart(s) != [] ==> TrimStart(s + w) == TrimStart(s) + w
    decreases |s| + |w|
  {
    if s == [] {
      assert s + w == w;
      if w != [] {
        TrimStartAppend(w[1..], []);
        assert w[1..] + [] == w[1..];
        AllWhitespaceTrimsToEmpty(w);
      }
    } else if IsWhitespace(s[0]) {
      assert (s + w)[1..] == s[1..] + w;
      TrimStartAppend(s[1..], w);
    } else {
      assert (s + w)[0] == s[0];
    }
  }

  lemma {:induction false} AllWhitespaceTrimsToEmpty(w: string)
    requires AllWhitespace(w)
    ensures TrimStart(w) == []
    decreases |w|
  {
    if w != [] {
      AllWhitespaceTrimsToEmpty(w[1..]);
    }
  }

  lemma {:induction false} TrimEndAppend(s: string, w: string)
    requires AllWhitespace(w)
    ensures TrimEnd(s + w) == TrimEnd(s)
    decreases |w|
  {
    if w != [] {
      var w' := w[..|w| - 1];
      assert (s + w)[..|s + w| - 1] == s + w';
      TrimEndAppend(s, w');
    } else {
      assert s + w == s;
    }
  }

  /** `s.split('\n')`: the lines of `s`, never empty, none holding a newline. */
  function Split(s: string): (lines: seq<string>)
    ensures |lines| >= 1
    ensures forall k :: 0 <= k < |lines| ==> '\n' !in lines[k]
  {
    if s == [] then [""]
    else
      var rest := Split(s[1..]);
      if s[0] == '\n' then [""] + rest
      else [[s[0]] + rest[0]] + rest[1..]
  }

  /** `lines.join('\n')`. */
  function Join(lines: seq<string>): string {
    if |lines| == 0 then ""
    else if |lines| == 1 then lines[0]
    else lines[0] + "\n" + Join(lines[1..])
  }

  /** Joining the lines of `s` gives `s` back. */
  lemma {:induction false} JoinSplit(s: string)
    ensures Join(Split(s)) == s
  {
    if s != [] {
      var rest := Split(s[1..]);
      JoinSplit(s[1..]);
      if s[0] == '\n' {
        assert Split(s) == [""] + rest;
        assert Split(s)[1..] == rest;
      } else {
        var lines := [[s[0]] + rest[0]] + rest[1..];
        if |rest| == 1 {
          assert lines == [[s[0]] + rest[0]];
        } else {
          assert lines[1..] == rest[1..];
          assert Join(rest) == rest[0] + "\n" + Join(rest[1..]);
        }
        assert [s[0]] + s[1..] == s;
      }
    }
  }

  /** Splitting the join of newline-free lines gives those lines back. */
  lemma {:induction false} SplitJoin(lines: seq<string>)
    requires |lines| >= 1
    requires forall k :: 0 <= k < |lines| ==> '\n' !in lines[k]
    ensures Split(Join(lines)) == lines
    decreases |lines|
  {
    if |lines| == 1 {
      SplitNoNewline(lines[0]);
    } else {
      SplitJoin(lines[1..]);
      SplitConcat(lines[0], Join(lines[1..]));
      SplitNoNewline(lines[0]);
      assert [lines[0]] + lines[1..] == lines;
    }
  }

  lemma {:induction false} SplitNoNewline(s: string)
    requires '\n' !in s
    ensures Split(s) == [s]
  {
    if s != [] {
      assert '\n' !in s[1..] by {
        forall k | 0 <= k < |s| - 1 ensures s[1..][k] != '\n' {
          assert s[1..][k] == s[k + 1];
        }
      }
      SplitNoNewline(s[1..]);
      assert [s[0]] + s[1..] == s;
    }
  }

  /** A newline in the middle splits the lines in two. */
  lemma {:induction false} SplitConcat(a: string, b: string)
    ensures Split(a + "\n" + b) == Split(a) + Split(b)
    decreases |a|
  {
    if a == [] {
      assert a + "\n" + b == "\n" + b;
      assert ("\n" + b)[1..] == b;
    } else {
      var s := a + "\n" + b;
      assert s[0] == a[0];
      assert s[1..] == a[1..] + "\n" + b;
      SplitConcat(a[1..], b);
    }
  }

  /** Joining two non-empty runs of lines puts one newline between them. */
  lemma {:induction false} JoinConcat(a: seq<string>, b: seq<string>)
    requires |a| >= 1 && |b| >= 1
    ensures Join(a + b) == Join(a) + "\n" + Join(b)
    decreases |a|
  {
    if |a| == 1 {
      assert (a + b)[1..] == b;
    } else {
      assert (a + b)[1..] == a[1..] + b;
      JoinConcat(a[1..], b);
    }
  }

  /** `t` occurs in `s` starting at index `i`. */
  predicate OccursAt(s: string, t: string, i: int) {
    0 <= i <= |s| - |t| && s[i..i + |t|] == t
  }

  /** `s.includes(t)`. */
  predicate Contains(s: string, t: string) {
    exists i :: 0 <= i <= |s| - |t| && OccursAt(s, t, i)
  }

  /** `s.startsWith(p)`. */
  predicate StartsWith(s: string, p: string) {
    |p| <= |s| && s[..|p|] == p
  }

  /** `s.endsWith(p)`. */
  predicate EndsWith(s: string, p: string) {
    |p| <= |s| && s[|s| - |p|..] == p
  }

  /** A string whose first character does not occur in `s` does not occur in `s`. */
  lemma NotContainsWithoutFirstChar(s: string, t: string)
    requires t != [] && t[0] !in s
    ensures !Contains(s, t)
  {
    forall i | 0 <= i <= |s| - |t| ensures !OccursAt(s, t, i) {
      assert s[i..i + |t|][0] == s[i];
    }
  }

  /**
   * A string anchored at its first character: `t` starts with a character that
   * `s` has only at index 0, and `s` and `t` differ at index `j`.
   */
  lemma NotContainsAnchored(s: string, t: string, j: nat)
    requires t != [] && |s| > 0 && t[0] !in s[1..]
    requires j < |t| && (j < |s| ==> s[j] != t[j])
    ensures !Contains(s, t)
  {
    forall i | 0 <= i <= |s| - |t| ensures !OccursAt(s, t, i) {
      if i == 0 {
        assert s[i..i + |t|][j] == s[j];
      } else {
        assert s[i..i + |t|][0] == s[1..][i - 1];
      }
    }
  }

  /** An occurrence after a prefix that lacks the first character is an occurrence in the rest. */
  lemma ContainsAfterPrefix(a: string, p: string, t: string)
    requires t != [] && t[0] !in a
    ensures Contains(a + p, t) ==> Contains(p, t)
  {
    forall i | OccursAt(a + p, t, i) ensures OccursAt(p, t, i - |a|) {
      assert (a + p)[i] == t[0];
      assert i >= |a|;
      assert p[i - |a|..i - |a| + |t|] == (a + p)[i..i + |t|];
    }
  }

  /**
   * An occurrence in `p + b` that is not in `p` either crosses into `b` or is in `b`.
   * When `b[0]` is absent from `t`, or `t` has no `b[1]` and does not end with `b[0]`,
   * the first is impossible; when `b` lacks `t[0]`, so is the second.
   */
  lemma ContainsBeforeSuffix(p: string, b: string, t: string)
    requires t != [] && |b| >= 2
    requires b[0] !in t || (b[1] !in t && t[|t| - 1] != b[0])
    requires t[0] !in b
    ensures Contains(p + b, t) ==> Contains(p, t)
  {
    forall i | OccursAt(p + b, t, i) ensures OccursAt(p, t, i) {
      assert (p + b)[i] == t[0];
      assert i < |p|;
      // the characters of `t` that would sit on b[0] and b[1] if it crossed into `b`
      var m0 := if i + |t| > |p| then |p| - i else 0;
      var m1 := if i + |t| > |p| + 1 then |p| - i + 1 else 0;
      assert t[m0] == (p + b)[i + m0] && t[m1] == (p + b)[i + m1];
      assert i + |t| <= |p|;
      assert p[i..i + |t|] == (p + b)[i..i + |t|];
    }
  }

  /** A line of `s` holds only what `s` holds. */
  lemma {:induction false} LinesInherit(s: string, t: string)
    requires !Contains(s, t)
    ensures forall k :: 0 <= k < |Split(s)| ==> !Contains(Split(s)[k], t)
  {
    forall k, j | 0 <= k < |Split(s)| && OccursAt(Split(s)[k], t, j) ensures false {
      var line := Split(s)[k];
      var i := LineIsPiece(s, k);
      SliceOfSlice(s, i, |line|, j, |t|);
      assert OccursAt(s, t, i + j);
    }
  }

  /** An occurrence inside an occurrence is an occurrence. */
  lemma OccursInPiece(s: string, u: string, t: string, i: nat, j: nat)
    requires OccursAt(s, u, i) && OccursAt(u, t, j)
    ensures OccursAt(s, t, i + j)
  {
    SliceOfSlice(s, i, |u|, j, |t|);
  }

  lemma SliceOfSlice(s: string, i: nat, len: nat, j: nat, n: nat)
    requires i + len <= |s| && j + n <= len
    ensures s[i..i + len][j..j + n] == s[i + j..i + j + n]
  {
    var u := s[i..i + len][j..j + n];
    assert forall k :: 0 <= k < n ==> u[k] == s[i + j + k];
  }

  /** Every line of `s` is a piece of `s`; `i` is where it starts. */
  lemma {:induction false} LineIsPiece(s: string, k: nat) returns (i: nat)
    requires k < |Split(s)|
    ensures OccursAt(s, Split(s)[k], i)
    decreases |s|
  {
    if s == [] {
      i := 0;
    } else {
      var rest := Split(s[1..]);
      if s[0] == '\n' && k == 0 {
        i := 0;
      } else if s[0] == '\n' {
        assert Split(s)[k] == rest[k - 1];
        var i' := LineIsPiece(s[1..], k - 1);
        i := i' + 1;
        OccursInTail(s, rest[k - 1], i');
      } else if k == 0 {
        FirstLineIsPrefix(s[1..]);
        i := 0;
        assert Split(s)[0] == [s[0]] + rest[0];
        assert s[0..|rest[0]| + 1] == [s[0]] + s[1..][..|rest[0]|];
      } else {
        assert Split(s)[k] == rest[k];
        var i' := LineIsPiece(s[1..], k);
        i := i' + 1;
        OccursInTail(s, rest[k], i');
      }
    }
  }

  /** An occurrence in the tail of `s` is an occurrence in `s`, one place later. */
  lemma OccursInTail(s: string, t: string, i: nat)
    requires s != [] && OccursAt(s[1..], t, i)
    ensures OccursAt(s, t, i + 1)
  {
    var u := s[i + 1..i + 1 + |t|];
    forall k | 0 <= k < |t| ensures u[k] == t[k] {
      assert u[k] == s[1..][i + k];
    }
  }

  /** The first line of `s` is a prefix of `s`: what `s.split('\n')[0]` means. */
  lemma {:induction false} FirstLineIsPrefix(s: string)
    ensures StartsWith(s, Split(s)[0])
    ensures |Split(s)[0]| < |s| ==> s[|Split(s)[0]|] == '\n'
    decreases |s|
  {
    if s != [] && s[0] != '\n' {
      FirstLineIsPrefix(s[1..]);
    }
  }

  /** ASCII `toLowerCase` of one character. */
  function LowerChar(c: char): char {
    if 'A' <= c <= 'Z' then (c as int + 32) as char else c
  }

  /** `s.toLowerCase()` restricted to ASCII letters. */
  function ToLowerAscii(s: string): (r: string)
    ensures |r| == |s|
  {
    seq(|s|, i requires 0 <= i < |s| => LowerChar(s[i]))
  }

  predicate IsDigit(c: char) {
    '0' <= c <= '9'
  }

  predicate AllDigits(s: string) {
    forall i :: 0 <= i < |s| ==> IsDigit(s[i])
  }

  function DigitChar(d: nat): (c: char)
    requires d < 10
    ensures IsDigit(c) && c as int - '0' as int == d
  {
    ('0' as int + d) as char
  }

  /** The number a run of decimal digits denotes, most significant first. */
  function DigitsValue(ds: string): nat
    requires AllDigits(ds)
  {
    if ds == [] then 0
    else DigitsValue(ds[..|ds| - 1]) * 10 + (ds[|ds| - 1] as int - '0' as int)
  }

  /** `String(n)` for a non-negative integer: its decimal digits, without leading zeros. */
  function NatToString(n: nat): (r: string)
    ensures |r| >= 1 && AllDigits(r)
    ensures r[0] == '0' ==> r == "0"
    ensures DigitsValue(r) == n
  {
    if n < 10 then [DigitChar(n)]
    else
      var r := NatToString(n / 10) + [DigitChar(n % 10)];
      assert r[..|r| - 1] == NatToString(n / 10);
      r
  }

  /** `String(n)` for any integer. */
  function IntToString(n: int): (r: string)
    ensures n >= 0 ==> r == NatToString(n)
    ensures n < 0 ==> r == "-" + NatToString(-n)
  {
    if n < 0 then "-" + NatToString(-n) else NatToString(n)
  }

  /** `s.padStart(2, '0')`. */
  function PadStart2(s: string): (r: string)
    ensures |s| >= 2 ==> r == s
    ensures |s| < 2 ==> |r| == 2 && r[2 - |s|..] == s && forall i :: 0 <= i < 2 - |s| ==> r[i] == '0'
  {
    if |s| >= 2 then s else if |s| == 1 then "0" + s else "00"
  }

  /** The longest prefix of `s` made of decimal digits. */
  function DigitPrefix(s: string): (ds: string)
    ensures StartsWith(s, ds) && AllDigits(ds)
    ensures |ds| < |s| ==> !IsDigit(s[|ds|])
  {
    if s != [] && IsDigit(s[0]) then [s[0]] + DigitPrefix(s[1..]) else ""
  }

  predicate IsHexDigit(c: char) {
    IsDigit(c) || 'a' <= c <= 'f' || 'A' <= c <= 'F'
  }

  function HexDigitValue(c: char): nat
    requires IsHexDigit(c)
  {
    if IsDigit(c) then c as int - '0' as int
    else if 'a' <= c <= 'f' then c as int - 'a' as int + 10
    else c as int - 'A' as int + 10
  }

  /** The longest prefix of `s` made of hexadecimal digits. */
  function HexPrefix(s: string): (hs: string)
    ensures StartsWith(s, hs) && forall i :: 0 <= i < |hs| ==> IsHexDigit(hs[i])
    ensures |hs| < |s| ==> !IsHexDigit(s[|hs|])
  {
    if s != [] && IsHexDigit(s[0]) then [s[0]] + HexPrefix(s[1..]) else ""
  }

  function HexValue(hs: string): nat
    requires forall i :: 0 <= i < |hs| ==> IsHexDigit(hs[i])
  {
    if hs == [] then 0
    else HexValue(hs[..|hs| - 1]) * 16 + HexDigitValue(hs[|hs| - 1])
  }

  /**
   * `parseInt(s)` with no radix: leading whitespace is skipped, one sign is
   * read, a `0x`/`0X` prefix switches to base 16, and the longest run of
   * digits that follows is the value; no digits at all is `NaN` (`None`).
   */
  function ParseInt(s: string): Option<int> {
    if s != [] && IsWhitespace(s[0]) then ParseInt(s[1..]) else ParseSigned(s)
  }

  /** `parseInt` once leading whitespace is gone: an optional sign, then the magnitude. */
  function ParseSigned(t: string): Option<int> {
    var negative := t != [] && t[0] == '-';
    var u := if t != [] && (t[0] == '-' || t[0] == '+') then t[1..] else t;
    match ParseMagnitude(u)
    case None => None
    case Some(m) =>
      var v: int := if negative then -(m as int) else m;
      Some(v)
  }

  /** The unsigned part: hexadecimal after `0x`/`0X`, decimal otherwise. */
  function ParseMagnitude(u: string): Option<nat> {
    if |u| >= 2 && u[0] == '0' && (u[1] == 'x' || u[1] == 'X') then
      var hs := HexPrefix(u[2..]);
      if hs == [] then None else Some(HexValue(hs))
    else
      var ds := DigitPrefix(u);
      if ds == [] then None else Some(DigitsValue(ds))
  }

  /** `parseInt(String(n)) == n`. */
  lemma ParseIntOfNatToString(n: nat)
    ensures ParseInt(NatToString(n)) == Some(n)
  {
    var s := NatToString(n);
    assert IsDigit(s[0]) && !IsWhitespace(s[0]);
    assert s[0] != '-' && s[0] != '+';
    assert !(|s| >= 2 && s[0] == '0');
    AllDigitsPrefix(s);
  }

  lemma {:induction false} AllDigitsPrefix(s: string)
    requires AllDigits(s)
    ensures DigitPrefix(s) == s
  {
    if s != [] {
      AllDigitsPrefix(s[1..]);
    }
  }

  // ---------------------------------------------------------------------------
  // Building a string piece by piece

  /** `xs.forEach(x => out += f(x))` from an empty `out`: the pieces in order. */
  function ConcatMap<T>(xs: seq<T>, f: T -> string): string {
    if xs == [] then "" else ConcatMap(xs[..|xs| - 1], f) + f(xs[|xs| - 1])
  }

  /** The pieces of a concatenation are the pieces of each part, in order. */
  lemma {:induction false} ConcatMapConcat<T>(a: seq<T>, b: seq<T>, f: T -> string)
    ensures ConcatMap(a + b, f) == ConcatMap(a, f) + ConcatMap(b, f)
    decreases |b|
  {
    if b == [] {
      assert a + b == a;
    } else {
      var b' := b[..|b| - 1];
      assert (a + b)[..|a + b| - 1] == a + b';
      assert (a + b)[|a + b| - 1] == b[|b| - 1];
      ConcatMapConcat(a, b', f);
    }
  }

  /** Extending the pieces by one appends that piece. */
  lemma ConcatMapSnoc<T>(xs: seq<T>, i: nat, f: T -> string)
    requires i < |xs|
    ensures ConcatMap(xs[..i + 1], f) == ConcatMap(xs[..i], f) + f(xs[i])
  {
    assert xs[..i + 1][..i] == xs[..i];
  }

  lemma ConcatMapSingle<T>(x: T, f: T -> string)
    ensures ConcatMap([x], f) == f(x)
  {
    assert [x][..0] == [];
  }

  /** Appending keeps a prefix. */
  lemma StartsWithExtend(s: string, t: string, p: string)
    requires StartsWith(s, p)
    ensures StartsWith(s + t, p)
  {
    assert (s + t)[..|p|] == s[..|p|];
  }

  /** `(a + b) + c` is `a + (b + c)`. */
  lemma AppendAssoc(a: string, b: string, c: string)
    ensures (a + b) + c == a + (b + c)
  {
  }
}
