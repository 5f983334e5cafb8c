/** The JavaScript string built-ins the two submission views rely on:
    `split` on a one-character separator, `trim`, and `parseInt` in radix
    10. Strings are sequences of characters; JavaScript's UTF-16 code
    units and its floating-point numbers are not modelled. */
module JsText {
  import opened Common

  /** The characters `trim` removes: the white space and line terminators
      of the ECMAScript grammar (tab, vertical tab, form feed, space,
      no-break space, byte order mark, the other space separators, line
      feed, carriage return, line and paragraph separators). */
  predicate IsJsSpace(c: char) {
    var n := c as int;
    || 9 <= n <= 13 || n == 32 || n == 0xA0 || n == 0x1680 || 0x2000 <= n <= 0x200A
    || n == 0x2028 || n == 0x2029 || n == 0x202F || n == 0x205F || n == 0x3000 || n == 0xFEFF
  }

  predicate AllSpace(s: string) {
    forall k :: 0 <= k < |s| ==> IsJsSpace(s[k])
  }

  /** Neither end of `s` is white space. */
  predicate Unpadded(s: string) {
    s == [] || (!IsJsSpace(s[0]) && !IsJsSpace(s[|s| - 1]))
  }

  /** `s` without its leading white space. */
  function TrimStart(s: string): (r: string)
    ensures |r| <= |s|
  {
    if s != [] && IsJsSpace(s[0]) then TrimStart(s[1..]) else s
  }

  /** `s.trim()`: `s` without white space at either end. */
  function Trim(s: string): (r: string)
    ensures |r| <= |s|
  {
    if s != [] && IsJsSpace(s[0]) then Trim(s[1..])
    else if s != [] && IsJsSpace(s[|s| - 1]) then Trim(s[..|s| - 1])
    else s
  }

  /** Trimmed text is unpadded. */
  lemma {:induction false} TrimUnpadded(s: string)
    ensures Unpadded(Trim(s))
  {
    if s != [] && IsJsSpace(s[0]) {
      TrimUnpadded(s[1..]);
    } else if s != [] && IsJsSpace(s[|s| - 1]) {
      TrimUnpadded(s[..|s| - 1]);
    }
  }

  /** Trimming removes white space only: `s` is the trimmed text with
      white space before and after it. */
  lemma {:induction false} TrimRemovesOnlySpace(s: string) returns (pre: string, post: string)
    ensures s == pre + Trim(s) + post
    ensures AllSpace(pre) && AllSpace(post)
  {
    if s != [] && IsJsSpace(s[0]) {
      var p, q := TrimRemovesOnlySpace(s[1..]);
      pre, post := [s[0]] + p, q;
      assert s == [s[0]] + s[1..];
    } else if s != [] && IsJsSpace(s[|s| - 1]) {
      var p, q := TrimRemovesOnlySpace(s[..|s| - 1]);
      pre, post := p, q + [s[|s| - 1]];
      assert s == s[..|s| - 1] + [s[|s| - 1]];
    } else {
      pre, post := [], [];
    }
  }

  /** Trimming leaves unpadded text alone, and only unpadded text. */
  lemma TrimFixedIff(s: string)
    ensures Trim(s) == s <==> Unpadded(s)
  {
    TrimUnpadded(s);
  }

  /** Trimming twice is trimming once. */
  lemma TrimIdempotent(s: string)
    ensures Trim(Trim(s)) == Trim(s)
  {
    TrimUnpadded(s);
    TrimFixedIff(Trim(s));
  }

  // ---------------------------------------------------------------- split

  /** The first position of `c` in `s`, or `|s|`. */
  function IndexOf(s: string, c: char): (i: nat)
    ensures i <= |s| && (i < |s| ==> s[i] == c)
    ensures forall k :: 0 <= k < i ==> s[k] != c
  {
    if s == [] || s[0] == c then 0 else 1 + IndexOf(s[1..], c)
  }

  /** `s.split(sep)` for a one-character separator: the pieces between
      separators, at least one, none holding the separator. */
  function Split(s: string, sep: char): (parts: seq<string>)
    ensures |parts| >= 1
    ensures forall k :: 0 <= k < |parts| ==> sep !in parts[k]
    decreases |s|
  {
    var i := IndexOf(s, sep);
    if i == |s| then [s] else [s[..i]] + Split(s[i + 1..], sep)
  }

  /** `parts.join(sep)`. */
  function Join(parts: seq<string>, sep: char): string
  {
    if parts == [] then ""
    else if |parts| == 1 then parts[0]
    else parts[0] + [sep] + Join(parts[1..], sep)
  }

  /** Joining the pieces gives back the string split. */
  lemma {:induction false} JoinSplit(s: string, sep: char)
    ensures Join(Split(s, sep), sep) == s
    decreases |s|
  {
    var i := IndexOf(s, sep);
    if i < |s| {
      JoinSplit(s[i + 1..], sep);
      assert s == s[..i] + [sep] + s[i + 1..];
    }
  }

  /** Splitting a join of separator-free pieces gives back the pieces. */
  lemma {:induction false} SplitJoin(parts: seq<string>, sep: char)
    requires |parts| >= 1
    requires forall k :: 0 <= k < |parts| ==> sep !in parts[k]
    ensures Split(Join(parts, sep), sep) == parts
    decreases |parts|
  {
    var p := parts[0];
    assert IndexOf(p, sep) == |p|;
    if |parts| > 1 {
      SplitAppend(p, Join(parts[1..], sep), sep);
      SplitJoin(parts[1..], sep);
      assert [p] + parts[1..] == parts;
    }
  }

  /** Splitting two texts joined by the separator splits each of them:
      the separator ends the last piece of the first. */
  lemma {:induction false} SplitAppend(a: string, b: string, sep: char)
    ensures Split(a + [sep] + b, sep) == Split(a, sep) + Split(b, sep)
    decreases |a|
  {
    var s := a + [sep] + b;
    var i := IndexOf(a, sep);
    assert forall k :: 0 <= k < |a| ==> s[k] == a[k];
    assert IndexOf(s, sep) == i by {
      assert s[if i < |a| then i else |a|] == sep;
    }
    if i < |a| {
      assert s[..i] == a[..i];
      assert s[i + 1..] == a[i + 1..] + [sep] + b;
      SplitAppend(a[i + 1..], b, sep);
    } else {
      assert s[..i] == a && s[i + 1..] == b;
    }
  }

  // ---------------------------------------------------------------- parseInt

  /** The longest prefix of `s` made of decimal digits. */
  function DigitPrefix(s: string): (d: string)
    ensures |d| <= |s| && d == s[..|d|]
    ensures forall k :: 0 <= k < |d| ==> IsDigit(d[k])
    ensures |d| == |s| || !IsDigit(s[|d|])
  {
    if s == [] || !IsDigit(s[0]) then [] else [s[0]] + DigitPrefix(s[1..])
  }

  /** `parseInt(s, 10)`: leading white space is skipped, then an optional
      sign, then the longest run of digits; no digit at all is `NaN`
      (here `None`). Anything after the digits is ignored. */
  function ParseInt(s: string): (r: Option<int>)
    ensures r.None? <==>
      var t := TrimStart(s);
      DigitPrefix(if t != [] && (t[0] == '-' || t[0] == '+') then t[1..] else t) == []
  {
    var t := TrimStart(s);
    var signed := t != [] && (t[0] == '-' || t[0] == '+');
    var d := DigitPrefix(if signed then t[1..] else t);
    if d == [] then None
    else
      var v: int := DigitsValue(d);
      if signed && t[0] == '-' then Some(-v) else Some(v)
  }

  /** `parseInt` reads back the decimal text of any integer. */
  lemma ParseIntRoundTrip(i: int)
    ensures ParseInt(IntToString(i)) == Some(i)
  {
    var s := IntToString(i);
    assert !IsJsSpace(s[0]);
    assert TrimStart(s) == s;
    if i < 0 {
      var n := NatToString(-i);
      assert s[1..] == n;
      DigitPrefixOfDigits(n);
      NatToStringRoundTrip(-i);
    } else {
      DigitPrefixOfDigits(s);
      NatToStringRoundTrip(i);
    }
  }

  /** A string of digits is its own longest digit prefix. */
  lemma {:induction false} DigitPrefixOfDigits(s: string)
    requires forall k :: 0 <= k < |s| ==> IsDigit(s[k])
    ensures DigitPrefix(s) == s
  {
    if s != [] {
      DigitPrefixOfDigits(s[1..]);
    }
  }
}
