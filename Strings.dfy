/**
 * The Python `str` operations the modelled code relies on, over Dafny strings:
 * `isspace`/`strip`, `startswith`, `find`, `split`, `join`, `lower`, and the
 * decimal rendering of non-negative integers (`str(n)`, `%02d`, `%03d`)
 * together with a digit parser that inverts it.
 */
module Strings {

  // ---------------------------------------------------------------------
  // Whitespace and strip
  // ---------------------------------------------------------------------

  /** Python's `str.isspace` for a single character. */
  predicate IsSpace(c: char) {
    || c == ' '
    || ('\t' <= c <= '\r')
    || ('\U{1C}' <= c <= '\U{1F}')
    || c == '\U{85}' || c == '\U{A0}' || c == '\U{1680}'
    || ('\U{2000}' <= c <= '\U{200A}')
    || c == '\U{2028}' || c == '\U{2029}' || c == '\U{202F}' || c == '\U{205F}' || c == '\U{3000}'
  }

  /** `s.lstrip()`: drop the leading whitespace. */
  function TrimStart(s: string): string {
    if |s| > 0 && IsSpace(s[0]) then TrimStart(s[1..]) else s
  }

  /** `lstrip` removes a prefix made of whitespace, up to the first other character. */
  lemma {:induction false} TrimStartSpec(s: string)
    ensures var r := TrimStart(s);
      && |r| <= |s| && r == s[|s| - |r|..]
      && (forall i :: 0 <= i < |s| - |r| ==> IsSpace(s[i]))
      && (r == [] || !IsSpace(r[0]))
  {
    if |s| > 0 && IsSpace(s[0]) {
      TrimStartSpec(s[1..]);
    }
  }

  /** `s.rstrip()`: drop the trailing whitespace. */
  function TrimEnd(s: string): string {
    if |s| > 0 && IsSpace(s[|s| - 1]) then TrimEnd(s[..|s| - 1]) else s
  }

  /** `rstrip` removes a suffix made of whitespace, back to the last other character. */
  lemma {:induction false} TrimEndSpec(s: string)
    ensures var r := TrimEnd(s);
      && |r| <= |s| && r == s[..|r|]
      && (forall i :: |r| <= i < |s| ==> IsSpace(s[i]))
      && (r == [] || !IsSpace(r[|r| - 1]))
  {
    if |s| > 0 && IsSpace(s[|s| - 1]) {
      TrimEndSpec(s[..|s| - 1]);
    }
  }

  /** Neither end of `s` is whitespace: what `strip` leaves behind. */
  predicate IsStripped(s: string) {
    s == [] || (!IsSpace(s[0]) && !IsSpace(s[|s| - 1]))
  }

  /** Python's `s.strip()` with no argument. */
  function Strip(s: string): string {
    TrimEnd(TrimStart(s))
  }

  /** `strip` leaves no whitespace at either end, and never lengthens the string. */
  lemma StripSpec(s: string)
    ensures IsStripped(Strip(s)) && |Strip(s)| <= |s|
  {
    TrimStartSpec(s);
    var t := TrimStart(s);
    TrimEndSpec(t);
    var r := TrimEnd(t);
    if r != [] {
      assert r[0] == t[0];
    }
  }

  /** A string with no whitespace at either end is its own strip. */
  lemma StripOfStripped(s: string)
    requires IsStripped(s)
    ensures Strip(s) == s
  {
    assert TrimStart(s) == s;
    assert TrimEnd(s) == s;
  }

  /** `strip` is idempotent. */
  lemma StripIdempotent(s: string)
    ensures Strip(Strip(s)) == Strip(s)
  {
    StripSpec(s);
    StripOfStripped(Strip(s));
  }

  /** A string that strips to nothing consists of whitespace only, and conversely. */
  lemma StripEmptyIffAllSpace(s: string)
    ensures Strip(s) == [] <==> forall i :: 0 <= i < |s| ==> IsSpace(s[i])
  {
    TrimStartSpec(s);
    var t := TrimStart(s);
    TrimEndSpec(t);
    if t != [] {
      assert t[0] == s[|s| - |t|];
      assert TrimEnd(t) != [];
    }
  }

  // ---------------------------------------------------------------------
  // Prefixes, search, split and join
  // ---------------------------------------------------------------------

  /** Python's `s.startswith(p)`. */
  predicate StartsWith(s: string, p: string) {
    |p| <= |s| && s[..|p|] == p
  }

  /** `pat` occurs in `s` starting at index `k`. */
  predicate OccursAt(s: string, pat: string, k: nat) {
    k + |pat| <= |s| && s[k..k + |pat|] == pat
  }

  lemma OccursAtChar(s: string, c: char, k: nat)
    ensures OccursAt(s, [c], k) <==> k < |s| && s[k] == c
  {
    if k < |s| && s[k] == c {
      assert s[k..k + 1] == [c];
    }
  }

  /**
   * Python's `s.find(pat, start)`: the least index at or after `start` where
   * `pat` occurs, or -1 when there is none (also when `start` is past the end).
   */
  function Find(s: string, pat: string, start: nat): (r: int)
    requires pat != []
    ensures r == -1 || (start <= r && OccursAt(s, pat, r))
    decreases |s| - start
  {
    if start + |pat| > |s| then -1
    else if OccursAt(s, pat, start) then start
    else Find(s, pat, start + 1)
  }

  /** `find` returns the first occurrence: there is none between `start` and the result. */
  lemma {:induction false} FindFirst(s: string, pat: string, start: nat)
    requires pat != []
    ensures forall k: nat :: start <= k && (Find(s, pat, start) == -1 || k < Find(s, pat, start)) ==> !OccursAt(s, pat, k)
    decreases |s| - start
  {
    if start + |pat| <= |s| && !OccursAt(s, pat, start) {
      FindFirst(s, pat, start + 1);
    }
  }

  /** Searching for one character: -1 exactly when it is absent from `s[start..]`. */
  lemma FindChar(s: string, c: char, start: nat)
    requires start <= |s|
    ensures var r := Find(s, [c], start);
      && (r == -1 <==> c !in s[start..])
      && (r != -1 ==> start <= r < |s| && s[r] == c && c !in s[start..r])
  {
    FindFirst(s, [c], start);
    var r := Find(s, [c], start);
    if r == -1 {
      forall k | start <= k < |s| ensures s[k] != c {
        OccursAtChar(s, c, k);
      }
    } else {
      OccursAtChar(s, c, r);
      forall k | start <= k < r ensures s[k] != c {
        OccursAtChar(s, c, k);
      }
      assert s[start..][r - start] == c;
    }
  }

  /** Python's `sep.join(xs)`. */
  function Join(xs: seq<string>, sep: string): string {
    if |xs| == 0 then ""
    else if |xs| == 1 then xs[0]
    else xs[0] + sep + Join(xs[1..], sep)
  }

  /** Python's `s.split(sep)` for a one-character separator. */
  function Split(s: string, sep: char): (r: seq<string>)
    ensures |r| >= 1
    ensures forall i :: 0 <= i < |r| ==> sep !in r[i]
    ensures Join(r, [sep]) == s
    decreases |s|
  {
    FindChar(s, sep, 0);
    var i := Find(s, [sep], 0);
    if i == -1 then [s]
    else
      assert s == s[..i] + [sep] + s[i + 1..];
      [s[..i]] + Split(s[i + 1..], sep)
  }

  /** A string without the separator splits into itself alone. */
  lemma SplitNone(x: string, sep: char)
    requires sep !in x
    ensures Split(x, sep) == [x]
  {
    FindChar(x, sep, 0);
    assert x[0..] == x;
  }

  /** A piece without the separator, then the separator, splits off first. */
  lemma SplitFirst(x: string, sep: char, rest: string)
    requires sep !in x
    ensures Split(x + [sep] + rest, sep) == [x] + Split(rest, sep)
  {
    var s := x + [sep] + rest;
    FindChar(s, sep, 0);
    var r := Find(s, [sep], 0);
    assert s[0..] == s;
    assert s[|x|] == sep;
    assert r == |x|;
    assert s[..r] == x;
    assert s[r + 1..] == rest;
  }

  /** Splitting a join on the same separator gives back the pieces. */
  lemma {:induction false} SplitJoin(xs: seq<string>, sep: char)
    requires |xs| >= 1
    requires forall i :: 0 <= i < |xs| ==> sep !in xs[i]
    ensures Split(Join(xs, [sep]), sep) == xs
  {
    if |xs| == 1 {
      SplitNone(xs[0], sep);
    } else {
      var rest := Join(xs[1..], [sep]);
      assert Join(xs, [sep]) == xs[0] + [sep] + rest;
      SplitFirst(xs[0], sep, rest);
      SplitJoin(xs[1..], sep);
      assert [xs[0]] + xs[1..] == xs;
    }
  }

  /** Joining a non-empty list with one more element. */
  lemma {:induction false} JoinSnoc(xs: seq<string>, x: string, sep: string)
    requires |xs| >= 1
    ensures Join(xs + [x], sep) == Join(xs, sep) + sep + x
  {
    if |xs| == 1 {
      assert xs + [x] == [xs[0], x];
    } else {
      assert (xs + [x])[1..] == xs[1..] + [x];
      JoinSnoc(xs[1..], x, sep);
    }
  }

  /** Joining two non-empty lists: the two joins meet at one separator. */
  lemma {:induction false} JoinAppend(xs: seq<string>, ys: seq<string>, sep: string)
    requires |xs| >= 1 && |ys| >= 1
    ensures Join(xs + ys, sep) == Join(xs, sep) + sep + Join(ys, sep)
  {
    if |xs| == 1 {
      assert (xs + ys)[1..] == ys;
    } else {
      assert (xs + ys)[1..] == xs[1..] + ys;
      JoinAppend(xs[1..], ys, sep);
    }
  }

  // ---------------------------------------------------------------------
  // Case
  // ---------------------------------------------------------------------

  /** `str.lower` on the ASCII letters; every other character is kept. */
  function LowerAscii(s: string): (r: string)
    ensures |r| == |s|
    ensures forall i :: 0 <= i < |s| ==> r[i] == (if 'A' <= s[i] <= 'Z' then (s[i] as int + 32) as char else s[i])
  {
    if s == [] then []
    else [if 'A' <= s[0] <= 'Z' then (s[0] as int + 32) as char else s[0]] + LowerAscii(s[1..])
  }

  // ---------------------------------------------------------------------
  // Decimal numbers
  // ---------------------------------------------------------------------

  predicate IsDigit(c: char) {
    '0' <= c <= '9'
  }

  predicate AllDigits(s: string) {
    forall i :: 0 <= i < |s| ==> IsDigit(s[i])
  }

  function DigitValue(c: char): nat
    requires IsDigit(c)
  {
    c as int - '0' as int
  }

  function DigitChar(d: nat): (c: char)
    requires d < 10
    ensures IsDigit(c) && DigitValue(c) == d
  {
    (d + '0' as int) as char
  }

  /** A character other than a digit does not occur in a string of digits. */
  lemma NotInDigits(d: string, c: char)
    requires AllDigits(d) && !IsDigit(c)
    ensures c !in d
  {
  }

  /** The number a string of decimal digits denotes (leading zeros allowed). */
  function ParseDigits(s: string): nat
    requires AllDigits(s)
  {
    if s == [] then 0 else ParseDigits(s[..|s| - 1]) * 10 + DigitValue(s[|s| - 1])
  }

  /** Python's `str(n)` for a non-negative integer: its decimal digits without leading zeros. */
  function NatToString(n: nat): (r: string)
    ensures |r| >= 1 && AllDigits(r)
  {
    if n < 10 then [DigitChar(n)] else NatToString(n / 10) + [DigitChar(n % 10)]
  }

  /** `str(n)` reads back as `n`, and has a leading zero only for zero itself. */
  lemma {:induction false} NatToStringParses(n: nat)
    ensures ParseDigits(NatToString(n)) == n
    ensures NatToString(n)[0] == '0' ==> n == 0
  {
    if n >= 10 {
      var r := NatToString(n);
      NatToStringParses(n / 10);
      assert r[..|r| - 1] == NatToString(n / 10);
    }
  }

  /** `f"{n:02d}"` for a number below 100. */
  function Pad2(n: nat): (r: string)
    requires n < 100
    ensures |r| == 2 && AllDigits(r)
  {
    [DigitChar(n / 10), DigitChar(n % 10)]
  }

  lemma Pad2Parses(n: nat)
    requires n < 100
    ensures ParseDigits(Pad2(n)) == n
  {
    var r := Pad2(n);
    assert r[..1] == [DigitChar(n / 10)] && [DigitChar(n / 10)][..0] == [];
    assert ParseDigits(r[..1]) == n / 10;
  }

  /** `f"{n:03d}"` for a number below 1000. */
  function Pad3(n: nat): (r: string)
    requires n < 1000
    ensures |r| == 3 && AllDigits(r)
  {
    [DigitChar(n / 100)] + Pad2(n % 100)
  }

  lemma Pad3Parses(n: nat)
    requires n < 1000
    ensures ParseDigits(Pad3(n)) == n
  {
    var r := Pad3(n);
    assert r[..2] == [DigitChar(n / 100), r[1]] && r[..2][..1] == [DigitChar(n / 100)];
    assert [DigitChar(n / 100)][..0] == [];
    assert ParseDigits(r[..2][..1]) == n / 100;
    assert ParseDigits(r[..2]) == n / 100 * 10 + (n % 100) / 10;
    assert ParseDigits(r) == (n / 100 * 10 + (n % 100) / 10) * 10 + n % 10;
  }

  /** The length of the longest prefix of `s` made of decimal digits. */
  function DigitPrefixLength(s: string): (n: nat)
    ensures n <= |s| && AllDigits(s[..n])
    ensures n == |s| || !IsDigit(s[n])
  {
    if s == [] || !IsDigit(s[0]) then 0
    else
      var n := 1 + DigitPrefixLength(s[1..]);
      assert s[..n] == [s[0]] + s[1..][..n - 1];
      n
  }

  /** A run of digits followed by a non-digit is exactly the digit prefix. */
  lemma {:induction false} DigitPrefixOfDigits(d: string, rest: string)
    requires AllDigits(d)
    requires rest == [] || !IsDigit(rest[0])
    ensures DigitPrefixLength(d + rest) == |d|
  {
    if d != [] {
      assert (d + rest)[1..] == d[1..] + rest;
      DigitPrefixOfDigits(d[1..], rest);
    } else {
      assert d + rest == rest;
    }
  }

  // ---------------------------------------------------------------------
  // Reading numbers back
  // ---------------------------------------------------------------------

  datatype Option<T> = None | Some(value: T)

  /** Splits `<digits><letter><rest>` into the number, the letter and the rest. */
  function ReadField(s: string): (f: Option<(nat, char, string)>)
    ensures f.Some? ==> |f.value.2| < |s|
  {
    var n := DigitPrefixLength(s);
    if n == 0 || n == |s| then None
    else Some((ParseDigits(s[..n]), s[n], s[n + 1..]))
  }

  /** A number written in decimal, then text starting with a non-digit, is read back as that number, that character and the rest. */
  lemma ReadFieldBefore(d: string, t: string)
    requires d != [] && AllDigits(d) && t != [] && !IsDigit(t[0])
    ensures ReadField(d + t) == Some((ParseDigits(d), t[0], t[1..]))
  {
    DigitPrefixOfDigits(d, t);
    assert (d + t)[..|d|] == d;
    assert (d + t)[|d| + 1..] == t[1..];
  }

  /** A number written in decimal, a non-digit, then anything, is read back field by field. */
  lemma ReadFieldOf(d: string, u: char, rest: string)
    requires d != [] && AllDigits(d) && !IsDigit(u)
    ensures ReadField(d + [u] + rest) == Some((ParseDigits(d), u, rest))
  {
    var s := d + [u] + rest;
    assert s == d + ([u] + rest);
    DigitPrefixOfDigits(d, [u] + rest);
    assert s[..|d|] == d;
  }

  // ---------------------------------------------------------------------
  // Lines grouped in blocks
  // ---------------------------------------------------------------------

  /** The blocks' lines one after another. */
  function Flatten(blocks: seq<seq<string>>): seq<string> {
    if blocks == [] then [] else Flatten(blocks[..|blocks| - 1]) + blocks[|blocks| - 1]
  }

  /** Each block joined on its own. */
  function JoinEach(blocks: seq<seq<string>>, sep: string): seq<string> {
    seq(|blocks|, k requires 0 <= k < |blocks| => Join(blocks[k], sep))
  }

  /** Blocks of four lines flatten to four lines per block. */
  lemma {:induction false} FlattenLength(blocks: seq<seq<string>>)
    requires forall k :: 0 <= k < |blocks| ==> |blocks[k]| == 4
    ensures |Flatten(blocks)| == 4 * |blocks|
    decreases |blocks|
  {
    if blocks != [] {
      FlattenLength(blocks[..|blocks| - 1]);
    }
  }

  /** With blocks of four lines, line `m` of block `i` is line `4 * i + m` of the flattening. */
  lemma {:induction false} FlattenAt(blocks: seq<seq<string>>, i: nat, m: nat)
    requires forall k :: 0 <= k < |blocks| ==> |blocks[k]| == 4
    requires i < |blocks| && m < 4
    ensures 4 * i + m < |Flatten(blocks)| && Flatten(blocks)[4 * i + m] == blocks[i][m]
    decreases |blocks|
  {
    var n := |blocks|;
    var init := blocks[..n - 1];
    FlattenLength(init);
    assert Flatten(blocks) == Flatten(init) + blocks[n - 1];
    if i < n - 1 {
      FlattenAt(init, i, m);
    }
  }

  /** A character found in no line of any block is found in no line of their flattening. */
  lemma FlattenNoChar(blocks: seq<seq<string>>, c: char)
    requires forall k :: 0 <= k < |blocks| ==> |blocks[k]| == 4
    requires forall k, m :: 0 <= k < |blocks| && 0 <= m < |blocks[k]| ==> c !in blocks[k][m]
    ensures forall j :: 0 <= j < |Flatten(blocks)| ==> c !in Flatten(blocks)[j]
  {
    FlattenLength(blocks);
    forall j | 0 <= j < |Flatten(blocks)|
      ensures c !in Flatten(blocks)[j]
    {
      FlattenAt(blocks, j / 4, j % 4);
    }
  }

  /** Joining each block and then the results is joining all lines, when no block is empty. */
  lemma {:induction false} JoinFlatten(blocks: seq<seq<string>>, sep: string)
    requires blocks != []
    requires forall k :: 0 <= k < |blocks| ==> blocks[k] != []
    ensures Join(JoinEach(blocks, sep), sep) == Join(Flatten(blocks), sep)
    decreases |blocks|
  {
    var n := |blocks|;
    var init := blocks[..n - 1];
    if n == 1 {
      assert init == [];
      assert Flatten(init) == [];
      assert Flatten(blocks) == blocks[0];
      assert JoinEach(blocks, sep) == [Join(blocks[0], sep)];
      assert Join(JoinEach(blocks, sep), sep) == Join(blocks[0], sep);
    } else {
      JoinFlatten(init, sep);
      assert JoinEach(blocks, sep) == JoinEach(init, sep) + [Join(blocks[n - 1], sep)];
      JoinSnoc(JoinEach(init, sep), Join(blocks[n - 1], sep), sep);
      JoinAppend(Flatten(init), blocks[n - 1], sep);
    }
  }
}
