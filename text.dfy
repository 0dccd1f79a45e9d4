/** The string operations the server code relies on: `join`, `split` on one
    character, `includes`, `replace` with a string pattern, `substring`,
    ASCII case mapping, `trim`, the decimal text of a number (`String(n)`)
    and `parseFloat`. A string is a sequence of `char`, each a Unicode scalar
    value; JavaScript counts UTF-16 code units instead, and the two agree
    only inside the Basic Multilingual Plane. */
module Text {
  import opened Common

  /** `parts.join(sep)`. */
  function Join(parts: seq<string>, sep: string): string
  {
    if |parts| == 0 then ""
    else if |parts| == 1 then parts[0]
    else parts[0] + sep + Join(parts[1..], sep)
  }

  /** `s.split(c)` for a one-character separator: every occurrence of `c`
      cuts the string, so `n` separators give `n + 1` pieces. */
  function Split(s: string, c: char): (r: seq<string>)
    ensures |r| >= 1
  {
    if |s| == 0 then [""]
    else
      var rest := Split(s[1..], c);
      if s[0] == c then [""] + rest else [[s[0]] + rest[0]] + rest[1..]
  }

  /** Splitting at a separator concatenates the pieces of both sides. */
  lemma {:induction false} SplitAround(a: string, c: char, b: string)
    ensures Split(a + [c] + b, c) == Split(a, c) + Split(b, c)
    decreases |a|
  {
    if |a| == 0 {
      assert a + [c] + b == [c] + b;
      assert ([c] + b)[1..] == b;
    } else {
      SplitAround(a[1..], c, b);
      SplitAroundStep(a, c, b);
    }
  }

  /** The inductive step of `SplitAround`: one more character in front. */
  lemma SplitAroundStep(a: string, c: char, b: string)
    requires |a| > 0
    requires Split(a[1..] + [c] + b, c) == Split(a[1..], c) + Split(b, c)
    ensures Split(a + [c] + b, c) == Split(a, c) + Split(b, c)
  {
    var rest := a[1..] + [c] + b;
    assert a + [c] + b == [a[0]] + rest;
    assert a == [a[0]] + a[1..];
    SplitCons(a[0], rest, c);
    SplitCons(a[0], a[1..], c);
    ConsPieces(a[0], c, Split(a[1..], c), Split(b, c));
  }

  /** The piece algebra behind `SplitAroundStep`. */
  lemma ConsPieces(x: char, c: char, p: seq<string>, q: seq<string>)
    requires |p| >= 1
    ensures (if x == c then [""] + (p + q) else [[x] + (p + q)[0]] + (p + q)[1..])
      == (if x == c then [""] + p else [[x] + p[0]] + p[1..]) + q
  {
    if x != c {
      assert (p + q)[0] == p[0];
      assert (p + q)[1..] == p[1..] + q;
    }
  }

  /** Splitting a text that starts with `x`. */
  lemma SplitCons(x: char, rest: string, c: char)
    ensures Split([x] + rest, c) ==
      if x == c then [""] + Split(rest, c)
      else [[x] + Split(rest, c)[0]] + Split(rest, c)[1..]
  {
    assert ([x] + rest)[0] == x;
    assert ([x] + rest)[1..] == rest;
  }

  /** A string without the separator is a single piece. */
  lemma {:induction false} SplitNoSeparator(a: string, c: char)
    requires c !in a
    ensures Split(a, c) == [a]
    decreases |a|
  {
    if |a| > 0 {
      assert c !in a[1..];
      SplitNoSeparator(a[1..], c);
      assert [a[0]] + a[1..] == a;
    }
  }

  /** Joining with a separator that occurs in no part and splitting again
      gives the parts back. */
  lemma {:induction false} SplitJoin(parts: seq<string>, c: char)
    requires |parts| >= 1
    requires forall i :: 0 <= i < |parts| ==> c !in parts[i]
    ensures Split(Join(parts, [c]), c) == parts
    decreases |parts|
  {
    if |parts| == 1 {
      SplitNoSeparator(parts[0], c);
    } else {
      SplitAround(parts[0], c, Join(parts[1..], [c]));
      SplitNoSeparator(parts[0], c);
      SplitJoin(parts[1..], c);
      assert [parts[0]] + parts[1..] == parts;
    }
  }

  /** Whatever the parts contain, the joined string splits into at least as
      many pieces as there were parts. */
  lemma {:induction false} SplitJoinCount(parts: seq<string>, c: char)
    requires |parts| >= 1
    ensures |Split(Join(parts, [c]), c)| >= |parts|
    decreases |parts|
  {
    if |parts| > 1 {
      SplitAround(parts[0], c, Join(parts[1..], [c]));
      SplitJoinCount(parts[1..], c);
    }
  }

  /** `t` is a prefix of `s`. */
  predicate StartsWith(s: string, t: string)
  {
    |t| <= |s| && s[..|t|] == t
  }

  /** `s.includes(t)`. */
  predicate Includes(s: string, t: string)
    decreases |s|
  {
    StartsWith(s, t) || (|s| > 0 && Includes(s[1..], t))
  }

  /** `s.indexOf(t)`: the first position where `t` occurs, if any. */
  function IndexOf(s: string, t: string): (r: Option<nat>)
    ensures r.Some? ==> r.value + |t| <= |s| && s[r.value..r.value + |t|] == t
    ensures r.Some? ==> forall j :: 0 <= j < r.value ==> !StartsWith(s[j..], t)
    ensures r.None? <==> !Includes(s, t)
    decreases |s|
  {
    if StartsWith(s, t) then Some(0)
    else if |s| == 0 then None
    else match IndexOf(s[1..], t)
      case None => None
      case Some(i) =>
        FirstOccurrenceShift(s, t, i);
        Some(i + 1)
  }

  /** A first occurrence in `s[1..]` is one position later in `s` when `s`
      does not start with `t`. */
  lemma FirstOccurrenceShift(s: string, t: string, i: nat)
    requires |s| > 0 && !StartsWith(s, t)
    requires i + |t| <= |s| - 1 && s[1..][i..i + |t|] == t
    requires forall j :: 0 <= j < i ==> !StartsWith(s[1..][j..], t)
    ensures s[i + 1..i + 1 + |t|] == t
    ensures forall j :: 0 <= j < i + 1 ==> !StartsWith(s[j..], t)
  {
    assert s[i + 1..i + 1 + |t|] == s[1..][i..i + |t|];
    forall j | 1 <= j < i + 1
      ensures !StartsWith(s[j..], t)
    {
      assert s[j..] == s[1..][j - 1..];
    }
  }

  /** `from` occurs at `i` and nowhere before. */
  predicate FirstAt(s: string, from: string, i: nat)
  {
    i + |from| <= |s| && s[i..i + |from|] == from
    && forall j :: 0 <= j < i ==> !StartsWith(s[j..], from)
  }

  /** The first occurrence is the one `indexOf` finds. */
  lemma FirstAtIndexOf(s: string, from: string)
    ensures forall i: nat :: FirstAt(s, from, i) ==> IndexOf(s, from) == Some(i)
  {
    forall i: nat | FirstAt(s, from, i)
      ensures IndexOf(s, from) == Some(i)
    {
      FirstAtIs(s, from, i);
    }
  }

  lemma FirstAtIs(s: string, from: string, i: nat)
    requires FirstAt(s, from, i)
    ensures IndexOf(s, from) == Some(i)
  {
    assert StartsWith(s[i..], from) by {
      assert s[i..][..|from|] == s[i..i + |from|];
    }
    IncludesAt(s, from, i);
    var k := IndexOf(s, from).value;
    assert StartsWith(s[k..], from) by {
      assert s[k..][..|from|] == s[k..k + |from|];
    }
  }

  /** A prefix of some suffix is included. */
  lemma {:induction false} IncludesAt(s: string, t: string, i: nat)
    requires i <= |s| && StartsWith(s[i..], t)
    ensures Includes(s, t)
    decreases i
  {
    if i > 0 {
      assert s[1..][i - 1..] == s[i..];
      IncludesAt(s[1..], t, i - 1);
    } else {
      assert s[0..] == s;
    }
  }

  /** The replacement text with its `$` patterns substituted, for a string
      pattern (which has no capture groups): `$$` is `$`, `$&` the matched
      text, `` $` `` the text before the match, `$'` the text after it; any
      other `$` (`$1`, `$<name>`) is kept as written. */
  function Expand(to: string, matched: string, before: string, after: string): string
    decreases |to|
  {
    if |to| == 0 then ""
    else if to[0] == '$' && |to| >= 2 && to[1] in "$&`'" then
      var piece := if to[1] == '$' then "$" else if to[1] == '&' then matched
        else if to[1] == '`' then before else after;
      piece + Expand(to[2..], matched, before, after)
    else [to[0]] + Expand(to[1..], matched, before, after)
  }

  /** A replacement without `$` is inserted as it is. */
  lemma {:induction false} ExpandPlain(to: string, matched: string, before: string, after: string)
    requires '$' !in to
    ensures Expand(to, matched, before, after) == to
    decreases |to|
  {
    if |to| > 0 {
      assert to[0] != '$';
      assert '$' !in to[1..];
      ExpandPlain(to[1..], matched, before, after);
      assert [to[0]] + to[1..] == to;
    }
  }

  /** Each pattern, written after plain text, stands for what it names. */
  lemma ExpandPatterns(p: string, matched: string, before: string, after: string)
    requires '$' !in p
    ensures Expand(p + "$&", matched, before, after) == p + matched
    ensures Expand(p + "$`", matched, before, after) == p + before
    ensures Expand(p + "$'", matched, before, after) == p + after
  {
    ExpandAppend(p, "$&", matched, before, after);
    ExpandAppend(p, "$`", matched, before, after);
    ExpandAppend(p, "$'", matched, before, after);
  }

  /** `$$` is a single dollar sign, and `$1` stays as written since a
      string pattern has no groups. */
  lemma ExpandEscapes(p: string, matched: string, before: string, after: string)
    requires '$' !in p
    ensures Expand(p + "$$", matched, before, after) == p + "$"
    ensures Expand(p + "$1", matched, before, after) == p + "$1"
  {
    ExpandAppend(p, "$$", matched, before, after);
    ExpandAppend(p, "$1", matched, before, after);
    assert "$1"[1..] == "1";
  }

  /** Plain text in front of a replacement passes through unchanged. */
  lemma {:induction false} ExpandAppend(p: string, t: string, matched: string, before: string, after: string)
    requires '$' !in p
    ensures Expand(p + t, matched, before, after) == p + Expand(t, matched, before, after)
    decreases |p|
  {
    if |p| > 0 {
      assert (p + t)[0] == p[0] != '$';
      assert (p + t)[1..] == p[1..] + t;
      assert '$' !in p[1..];
      ExpandAppend(p[1..], t, matched, before, after);
      calc {
        Expand(p + t, matched, before, after);
        [p[0]] + Expand(p[1..] + t, matched, before, after);
        [p[0]] + (p[1..] + Expand(t, matched, before, after));
        { assert [p[0]] + p[1..] == p; }
        p + Expand(t, matched, before, after);
      }
    } else {
      assert p + t == t;
    }
  }

  /** `s.replace(from, to)` with a string pattern: only the first
      occurrence is replaced, by `to` with its `$` patterns substituted. */
  function ReplaceFirst(s: string, from: string, to: string): (r: string)
    ensures !Includes(s, from) ==> r == s
    ensures forall i: nat :: FirstAt(s, from, i) ==>
      r == s[..i] + Expand(to, from, s[..i], s[i + |from|..]) + s[i + |from|..]
  {
    FirstAtIndexOf(s, from);
    match IndexOf(s, from)
    case None => s
    case Some(i) => s[..i] + Expand(to, from, s[..i], s[i + |from|..]) + s[i + |from|..]
  }

  function UpperChar(c: char): char
  {
    if 'a' <= c <= 'z' then (c as int - 32) as char else c
  }

  function LowerChar(c: char): char
  {
    if 'A' <= c <= 'Z' then (c as int + 32) as char else c
  }

  /** `s.toUpperCase()` on the ASCII letters. */
  function Upper(s: string): (r: string)
    ensures |r| == |s|
    ensures forall i :: 0 <= i < |s| ==> r[i] == UpperChar(s[i])
  {
    seq(|s|, i requires 0 <= i < |s| => UpperChar(s[i]))
  }

  /** `s.toLowerCase()` on the ASCII letters. */
  function Lower(s: string): (r: string)
    ensures |r| == |s|
    ensures forall i :: 0 <= i < |s| ==> r[i] == LowerChar(s[i])
  {
    seq(|s|, i requires 0 <= i < |s| => LowerChar(s[i]))
  }

  /** The white space and line terminators `trim` removes: tab, vertical
      tab, form feed, the byte order mark, the space separators (space,
      no-break space, ogham space mark, the spaces U+2000 to U+200A, narrow
      no-break space, medium mathematical space, ideographic space), line
      feed, carriage return and the line and paragraph separators. */
  predicate IsSpace(c: char)
  {
    c == '\t' || c == '\U{000B}' || c == '\U{000C}' || c == '\U{FEFF}'
    || c == ' ' || c == '\U{00A0}' || c == '\U{1680}' || '\U{2000}' <= c <= '\U{200A}'
    || c == '\U{202F}' || c == '\U{205F}' || c == '\U{3000}'
    || c == '\n' || c == '\r' || c == '\U{2028}' || c == '\U{2029}'
  }

  function TrimStart(s: string): (r: string)
    ensures |r| <= |s| && r == s[|s| - |r|..]
    ensures r == [] || !IsSpace(r[0])
    decreases |s|
  {
    if |s| > 0 && IsSpace(s[0]) then TrimStart(s[1..]) else s
  }

  /** Everything `TrimStart` removes is space. */
  lemma {:induction false} TrimStartSpaces(s: string)
    ensures forall i :: 0 <= i < |s| - |TrimStart(s)| ==> IsSpace(s[i])
    decreases |s|
  {
    if |s| > 0 && IsSpace(s[0]) {
      TrimStartSpaces(s[1..]);
      forall i | 1 <= i < |s| - |TrimStart(s)|
        ensures IsSpace(s[i])
      {
        assert s[i] == s[1..][i - 1];
      }
    }
  }

  function TrimEnd(s: string): (r: string)
    ensures |r| <= |s| && r == s[..|r|]
    ensures r == [] || !IsSpace(r[|r| - 1])
    decreases |s|
  {
    if |s| > 0 && IsSpace(s[|s| - 1]) then TrimEnd(s[..|s| - 1]) else s
  }

  /** Everything `TrimEnd` removes is space. */
  lemma {:induction false} TrimEndSpaces(s: string)
    ensures forall i :: |TrimEnd(s)| <= i < |s| ==> IsSpace(s[i])
    decreases |s|
  {
    if |s| > 0 && IsSpace(s[|s| - 1]) {
      TrimEndSpaces(s[..|s| - 1]);
      forall i | |TrimEnd(s)| <= i < |s| - 1
        ensures IsSpace(s[i])
      {
        assert s[i] == s[..|s| - 1][i];
      }
    }
  }

  /** `r` is `s[a..a + |r|]` and everything around it is space. */
  predicate TrimmedFrom(s: string, a: nat, r: string)
  {
    a + |r| <= |s| && r == s[a..a + |r|]
    && (forall i :: 0 <= i < a ==> IsSpace(s[i]))
    && (forall i :: a + |r| <= i < |s| ==> IsSpace(s[i]))
  }

  /** `s.trim()`: the result has no leading or trailing space and is what is
      left of `s` after removing space only. */
  function Trim(s: string): (r: string)
    ensures r == [] || (!IsSpace(r[0]) && !IsSpace(r[|r| - 1]))
    ensures exists a: nat :: TrimmedFrom(s, a, r)
  {
    TrimBothEnds(s);
    TrimEnd(TrimStart(s))
  }

  /** Where the trimmed text sits in `s`. */
  lemma TrimBothEnds(s: string)
    ensures TrimmedFrom(s, |s| - |TrimStart(s)|, TrimEnd(TrimStart(s)))
  {
    TrimSlice(s);
    TrimStartSpaces(s);
    TrimTrailing(s);
  }

  lemma TrimSlice(s: string)
    ensures var a := |s| - |TrimStart(s)|;
      TrimEnd(TrimStart(s)) == s[a..a + |TrimEnd(TrimStart(s))|]
  {
    var t := TrimStart(s);
    var r := TrimEnd(t);
    SliceOfSuffix(s, t, r);
  }

  /** A prefix of a suffix is a slice. */
  lemma SliceOfSuffix(s: string, t: string, r: string)
    requires |t| <= |s| && t == s[|s| - |t|..]
    requires |r| <= |t| && r == t[..|r|]
    ensures r == s[|s| - |t|..|s| - |t| + |r|]
  {
  }

  lemma TrimTrailing(s: string)
    ensures var a := |s| - |TrimStart(s)|;
      forall i :: a + |TrimEnd(TrimStart(s))| <= i < |s| ==> IsSpace(s[i])
  {
    var t := TrimStart(s);
    var r := TrimEnd(t);
    var a := |s| - |t|;
    TrimEndSpaces(t);
    forall i | a + |r| <= i < |s|
      ensures IsSpace(s[i])
    {
      assert s[i] == t[i - a];
    }
  }

  /** The trimmed text is the only one with both properties: it is unique. */
  lemma TrimUnique(s: string, a: nat, r: string)
    requires TrimmedFrom(s, a, r)
    requires r == [] || (!IsSpace(r[0]) && !IsSpace(r[|r| - 1]))
    ensures r == Trim(s)
  {
    var t := Trim(s);
    var b: nat :| TrimmedFrom(s, b, t);
    if r == [] || t == [] {
      assert r == [] && t == [];
    } else {
      assert !IsSpace(s[a]) && !IsSpace(s[b]) by {
        assert s[a] == r[0] && s[b] == t[0];
      }
      assert !IsSpace(s[a + |r| - 1]) && !IsSpace(s[b + |t| - 1]) by {
        assert s[a + |r| - 1] == r[|r| - 1] && s[b + |t| - 1] == t[|t| - 1];
      }
    }
  }

  /** An index clamped into [0, n]. */
  function Clamp(x: int, n: nat): (c: nat)
    ensures c <= n
    ensures 0 <= x <= n ==> c == x
  {
    Max(0, Min(x, n))
  }

  /** `s.substring(start, end)`: both indices are clamped into [0, |s|]
      (an absent end means |s|) and swapped when out of order. */
  function Substring(s: string, start: int, end: Option<int>): (r: string)
    ensures var a := Clamp(start, |s|);
      var b := if end.Some? then Clamp(end.value, |s|) else |s|;
      r == s[Min(a, b)..Max(a, b)]
  {
    var a := Max(0, Min(start, |s|));
    var b := match end case None => |s| case Some(e) => Max(0, Min(e, |s|));
    if a <= b then s[a..b] else s[b..a]
  }

  /** The order of the two indices does not matter. */
  lemma SubstringSwap(s: string, x: int, y: int)
    ensures Substring(s, x, Some(y)) == Substring(s, y, Some(x))
  {
  }

  /** Indices already in order and in range select exactly that slice. */
  lemma SubstringInRange(s: string, a: nat, b: nat)
    requires a <= b <= |s|
    ensures Substring(s, a, Some(b)) == s[a..b]
    ensures Substring(s, a, None) == s[a..]
  {
  }

  function DigitChar(d: nat): char
    requires d < 10
  {
    ('0' as int + d) as char
  }

  predicate IsDigit(c: char) { '0' <= c <= '9' }

  /** Decimal text of a natural number, without leading zeros. */
  function NatText(n: nat): (r: string)
    ensures |r| >= 1
    ensures forall i :: 0 <= i < |r| ==> IsDigit(r[i])
  {
    if n < 10 then [DigitChar(n)] else NatText(n / 10) + [DigitChar(n % 10)]
  }

  function IntText(i: int): (r: string)
    ensures |r| >= 1
  {
    if i < 0 then "-" + NatText(-i) else NatText(i)
  }

  /** Up to `k` decimal digits of a fraction in [0, 1), stopping when the
      remainder is zero. */
  function FractionDigits(f: real, k: nat): string
    requires 0.0 <= f < 1.0
    decreases k
  {
    if k == 0 || f == 0.0 then ""
    else
      var d := (f * 10.0).Floor;
      assert 0 <= d < 10;
      [DigitChar(d)] + FractionDigits(f * 10.0 - d as real, k - 1)
  }

  /** `String(n)` for a number: integers exactly, other values with at most
      sixteen fractional digits. */
  function NumText(n: real): string
    decreases if n < 0.0 then 1 else 0
  {
    if n < 0.0 then "-" + NumText(-n)
    else
      var whole := n.Floor;
      if n == whole as real then NatText(whole)
      else NatText(whole) + "." + FractionDigits(n - whole as real, 16)
  }

  /** Length of the run of digits at the start of `s`. */
  function LeadingDigits(s: string): (k: nat)
    ensures k <= |s|
    ensures forall i :: 0 <= i < k ==> IsDigit(s[i])
    ensures k < |s| ==> !IsDigit(s[k])
  {
    if |s| > 0 && IsDigit(s[0]) then 1 + LeadingDigits(s[1..]) else 0
  }

  /** The value of a string of digits. */
  function DigitsValue(d: string): nat
    requires forall i :: 0 <= i < |d| ==> IsDigit(d[i])
  {
    if |d| == 0 then 0
    else
      assert IsDigit(d[|d| - 1]);
      10 * DigitsValue(d[..|d| - 1]) + (d[|d| - 1] as int - '0' as int)
  }

  function Pow10(k: nat): (p: nat)
    ensures p >= 1
  {
    if k == 0 then 1 else 10 * Pow10(k - 1)
  }

  /** A complete exponent (`e` or `E`, an optional sign, at least one digit)
      at the start of `s`: the power of ten and its length; `(0, 0)` when
      there is none, so an incomplete one is not part of the number. */
  function ExponentPart(s: string): (r: (int, nat))
    ensures r.1 <= |s|
    ensures r.1 == 0 ==> r.0 == 0
  {
    if |s| >= 2 && (s[0] == 'e' || s[0] == 'E') then
      var signed := if s[1] == '+' || s[1] == '-' then 1 else 0;
      var k := LeadingDigits(s[1 + signed..]);
      if k == 0 then (0, 0)
      else
        var e := DigitsValue(s[1 + signed..][..k]) as int;
        (if s[1] == '-' then -e else e, 1 + signed + k)
    else (0, 0)
  }

  /** `x` times ten to the power `e`. */
  function Scale(x: real, e: int): real
    decreases if e >= 0 then e else -e
  {
    if e == 0 then x
    else if e > 0 then Scale(x, e - 1) * 10.0
    else Scale(x, e + 1) / 10.0
  }

  /** The digits and fraction of a decimal literal (`digits [. digits]`, at
      least one digit) at the start of `s`: its value and its length. */
  function Mantissa(s: string): (r: Option<(real, nat)>)
    ensures r.Some? ==> 1 <= r.value.1 <= |s|
  {
    var k := LeadingDigits(s);
    var whole := DigitsValue(s[..k]) as real;
    if k < |s| && s[k] == '.' then
      var m := LeadingDigits(s[k + 1..]);
      if k + m == 0 then None
      else Some((whole + DigitsValue(s[k + 1..][..m]) as real / Pow10(m) as real, k + 1 + m))
    else if k == 0 then None
    else Some((whole, k))
  }

  /** The longest unsigned decimal literal at the start of `s`, with its
      exponent if it has a complete one: its value and its length. */
  function UnsignedDecimal(s: string): Option<(real, nat)>
  {
    match Mantissa(s)
    case None => None
    case Some(m) =>
      var x := ExponentPart(s[m.1..]);
      Some((Scale(m.0, x.0), m.1 + x.1))
  }

  /** The longest decimal literal, with an optional sign, at the start of
      `s`: its value and its length. */
  function DecimalPrefix(s: string): Option<(real, nat)>
  {
    if |s| > 0 && (s[0] == '-' || s[0] == '+') then
      match UnsignedDecimal(s[1..])
      case None => None
      case Some(p) => Some((if s[0] == '-' then -p.0 else p.0, p.1 + 1))
    else UnsignedDecimal(s)
  }

  /** `parseFloat(s)`: leading space is skipped and the longest decimal
      prefix is read; `None` stands for NaN. */
  function ParseFloat(s: string): Option<real>
  {
    match DecimalPrefix(TrimStart(s))
    case None => None
    case Some(p) => Some(p.0)
  }

  /** The base that a `0x`, `0o` or `0b` prefix letter selects, or 0. */
  function Radix(c: char): nat
  {
    if c == 'x' || c == 'X' then 16
    else if c == 'o' || c == 'O' then 8
    else if c == 'b' || c == 'B' then 2
    else 0
  }

  /** The value of a digit or letter digit; 36 for any other character. */
  function DigitValue(c: char): nat
  {
    if '0' <= c <= '9' then c as int - '0' as int
    else if 'a' <= c <= 'z' then c as int - 'a' as int + 10
    else if 'A' <= c <= 'Z' then c as int - 'A' as int + 10
    else 36
  }

  predicate RadixDigits(d: string, base: nat)
  {
    forall i :: 0 <= i < |d| ==> DigitValue(d[i]) < base
  }

  /** The value of a string of digits in `base`. */
  function RadixValue(d: string, base: nat): nat
    requires RadixDigits(d, base)
  {
    if |d| == 0 then 0
    else base * RadixValue(d[..|d| - 1], base) + DigitValue(d[|d| - 1])
  }

  /** An unsigned `0x`, `0o` or `0b` literal: at least one digit of its
      base after the prefix; `None` stands for NaN. */
  function PrefixedInteger(t: string): Option<real>
    requires |t| >= 2 && Radix(t[1]) > 0
  {
    var d := t[2..];
    if |d| > 0 && RadixDigits(d, Radix(t[1])) then Some(RadixValue(d, Radix(t[1])) as real)
    else None
  }

  /** `Number(s)`: the whole trimmed text must be a decimal literal or an
      unsigned `0x`, `0o` or `0b` integer literal; the empty text is 0;
      `None` stands for NaN. */
  function TextToNumber(s: string): Option<real>
  {
    var t := Trim(s);
    if t == "" then Some(0.0)
    else if |t| >= 2 && t[0] == '0' && Radix(t[1]) > 0 then PrefixedInteger(t)
    else match DecimalPrefix(t)
      case Some(p) => if p.1 == |t| then Some(p.0) else None
      case None => None
  }

  /** A prefixed integer literal reads as its digits' value in that base. */
  lemma NumberRadixLiteral(s: string)
    requires |s| >= 3 && s[0] == '0' && Radix(s[1]) > 0 && RadixDigits(s[2..], Radix(s[1]))
    ensures TextToNumber(s) == Some(RadixValue(s[2..], Radix(s[1])) as real)
  {
    assert DigitValue(s[2..][|s| - 3]) < 36;
    NoSpaceAtEnds(s);
    NumberOfPrefixed(s);
  }

  /** A text that is its own trim and has a base prefix is read by
      `PrefixedInteger`. */
  lemma NumberOfPrefixed(s: string)
    requires |s| >= 2 && s[0] == '0' && Radix(s[1]) > 0 && Trim(s) == s
    ensures TextToNumber(s) == PrefixedInteger(s)
  {
  }

  /** A text that ends in a digit of some base and starts with `0` or a sign
      is its own trim. */
  lemma NoSpaceAtEnds(s: string)
    requires |s| >= 3 && (s[0] == '0' || s[0] == '-' || s[0] == '+') && DigitValue(s[|s| - 1]) < 36
    ensures Trim(s) == s
  {
    assert !IsSpace(s[0]) && !IsSpace(s[|s| - 1]);
    TrimUnique(s, 0, s);
  }

  /** A sign in front of a prefixed literal makes the text NaN. */
  lemma NumberSignedRadix(s: string)
    requires |s| >= 4 && (s[0] == '-' || s[0] == '+') && s[1] == '0' && Radix(s[2]) > 0
    requires RadixDigits(s[3..], Radix(s[2]))
    ensures TextToNumber(s) == None
  {
    assert DigitValue(s[3..][|s| - 4]) < 36;
    NoSpaceAtEnds(s);
    LoneZero(s[1..]);
  }

  /** A `0` followed by a letter that is neither `.` nor an exponent reads as
      the one-character literal `0`. */
  lemma LoneZero(u: string)
    requires |u| >= 2 && u[0] == '0' && Radix(u[1]) > 0
    ensures UnsignedDecimal(u) == Some((0.0, 1))
  {
    assert Mantissa(u) == Some((0.0, 1)) by {
      assert LeadingDigits(u[1..]) == 0;
      assert LeadingDigits(u) == 1;
      assert DigitsValue(u[..1]) == 0 by {
        assert u[..1][..0] == [];
      }
    }
    assert ExponentPart(u[1..]) == (0, 0);
  }


  lemma {:induction false} DigitsValueNatText(n: nat)
    ensures DigitsValue(NatText(n)) == n
  {
    if n >= 10 {
      var t := NatText(n);
      assert t[..|t| - 1] == NatText(n / 10);
      DigitsValueNatText(n / 10);
    }
  }

  lemma {:induction false} LeadingDigitsAll(d: string)
    requires forall i :: 0 <= i < |d| ==> IsDigit(d[i])
    ensures LeadingDigits(d) == |d|
    decreases |d|
  {
    if |d| > 0 { LeadingDigitsAll(d[1..]); }
  }

  lemma UnsignedDigits(d: string)
    requires |d| >= 1
    requires forall i :: 0 <= i < |d| ==> IsDigit(d[i])
    ensures UnsignedDecimal(d) == Some((DigitsValue(d) as real, |d|))
  {
    MantissaDigits(d);
    MantissaWhole(d, DigitsValue(d) as real);
  }

  /** Digits, `e` and digits read as the first value times ten to the
      second. */
  lemma ExponentDigits(s: string, n: nat)
    requires 1 <= n && n + 2 <= |s| && s[n] == 'e'
    requires forall i :: 0 <= i < n ==> IsDigit(s[i])
    requires forall i :: n < i < |s| ==> IsDigit(s[i])
    ensures UnsignedDecimal(s) == Some((Scale(DigitsValue(s[..n]) as real, DigitsValue(s[n + 1..])), |s|))
  {
    var d, x := s[..n], s[n + 1..];
    assert Mantissa(s) == Some((DigitsValue(d) as real, n)) by {
      assert s == d + s[n..];
      MantissaPrefix(d, s[n..]);
    }
    assert ExponentPart(s[n..]) == (DigitsValue(x), 1 + |x|) by {
      assert s[n..] == "e" + x;
      ExponentOfDigits(x);
    }
    MantissaExponent(s, DigitsValue(d) as real, n, DigitsValue(x), 1 + |x|);
  }

  /** `parseFloat` reads such a text as that value. */
  lemma ParseFloatExponent(s: string, n: nat)
    requires 1 <= n && n + 2 <= |s| && s[n] == 'e'
    requires forall i :: 0 <= i < n ==> IsDigit(s[i])
    requires forall i :: n < i < |s| ==> IsDigit(s[i])
    ensures ParseFloat(s) == Some(Scale(DigitsValue(s[..n]) as real, DigitsValue(s[n + 1..])))
  {
    ExponentDigits(s, n);
    assert IsDigit(s[0]);
    TrimStartUnspaced(s);
  }

  lemma ExponentIncomplete(d: string)
    requires |d| >= 1
    requires forall i :: 0 <= i < |d| ==> IsDigit(d[i])
    ensures UnsignedDecimal(d + "e") == Some((DigitsValue(d) as real, |d|))
  {
    assert (d + "e")[|d|..] == "e";
    assert ExponentPart("e") == (0, 0);
    MantissaPrefix(d, "e");
    MantissaExponent(d + "e", DigitsValue(d) as real, |d|, 0, 0);
  }

  lemma ExponentOfDigits(x: string)
    requires |x| >= 1
    requires forall i :: 0 <= i < |x| ==> IsDigit(x[i])
    ensures ExponentPart("e" + x) == (DigitsValue(x) as int, 1 + |x|)
  {
    LeadingDigitsAll(x);
    assert ("e" + x)[1..] == x && x[..|x|] == x;
  }

  /** Digits followed by something that is neither a digit nor a point are
      read as a whole number of that many digits. */
  lemma MantissaPrefix(d: string, rest: string)
    requires |d| >= 1
    requires forall i :: 0 <= i < |d| ==> IsDigit(d[i])
    requires |rest| > 0 && !IsDigit(rest[0]) && rest[0] != '.'
    ensures Mantissa(d + rest) == Some((DigitsValue(d) as real, |d|))
  {
    var s := d + rest;
    LeadingDigitsAppend(d, rest);
    assert s[..|d|] == d;
  }

  lemma {:induction false} LeadingDigitsAppend(d: string, rest: string)
    requires forall i :: 0 <= i < |d| ==> IsDigit(d[i])
    requires |rest| > 0 && !IsDigit(rest[0])
    ensures LeadingDigits(d + rest) == |d|
    decreases |d|
  {
    if |d| > 0 {
      assert (d + rest)[1..] == d[1..] + rest;
      LeadingDigitsAppend(d[1..], rest);
    } else {
      assert d + rest == rest;
    }
  }

  lemma MantissaExponent(s: string, v: real, n: nat, e: nat, k: nat)
    requires Mantissa(s) == Some((v, n))
    requires n <= |s| && ExponentPart(s[n..]) == (e, k)
    ensures UnsignedDecimal(s) == Some((Scale(v, e), n + k))
  {
  }

  /** A literal that ends with its digits has no exponent to scale it. */
  lemma MantissaWhole(d: string, v: real)
    requires Mantissa(d) == Some((v, |d|))
    ensures UnsignedDecimal(d) == Some((v, |d|))
  {
    assert d[|d|..] == [];
  }

  lemma MantissaDigits(d: string)
    requires |d| >= 1
    requires forall i :: 0 <= i < |d| ==> IsDigit(d[i])
    ensures Mantissa(d) == Some((DigitsValue(d) as real, |d|))
  {
    LeadingDigitsAll(d);
    assert d[..|d|] == d;
  }

  /** A run of digits with nothing after it reads as its own value. */
  lemma DecimalPrefixDigits(d: string)
    requires |d| >= 1
    requires forall i :: 0 <= i < |d| ==> IsDigit(d[i])
    ensures DecimalPrefix(d) == Some((DigitsValue(d) as real, |d|))
  {
    UnsignedDigits(d);
    assert IsDigit(d[0]);
  }

  lemma SignedPrefix(m: string, d: string)
    requires |m| > 0 && m[0] == '-' && m[1..] == d
    ensures DecimalPrefix(m) == match UnsignedDecimal(d)
      case None => None
      case Some(p) => Some((-p.0, p.1 + 1))
  {
  }

  lemma TrimStartUnspaced(s: string)
    requires |s| > 0 && !IsSpace(s[0])
    ensures TrimStart(s) == s
  {
  }

  /** `parseFloat(String(n)) == n` for every integer. */
  lemma ParseFloatIntText(i: int)
    ensures ParseFloat(IntText(i)) == Some(i as real)
  {
    var n: nat := if i < 0 then -i else i;
    var d := NatText(n);
    DigitsValueNatText(n);
    var t := IntText(i);
    if i < 0 {
      assert t == "-" + d && t[0] == '-';
      UnsignedDigits(d);
      SignedPrefix(t, d);
    } else {
      DecimalPrefixDigits(d);
      assert t == d && IsDigit(t[0]);
    }
    TrimStartUnspaced(t);
  }

  /** JavaScript's `<` on two strings: lexicographic on characters, which
      is JavaScript's code-unit order inside the Basic Multilingual Plane. */
  predicate StrLess(a: string, b: string)
  {
    if |a| == 0 then |b| > 0
    else if |b| == 0 then false
    else if a[0] != b[0] then a[0] < b[0]
    else StrLess(a[1..], b[1..])
  }

  lemma {:induction false} StrLessIrreflexive(a: string)
    ensures !StrLess(a, a)
  {
    if |a| > 0 { StrLessIrreflexive(a[1..]); }
  }

  lemma {:induction false} StrLessTransitive(a: string, b: string, c: string)
    requires StrLess(a, b) && StrLess(b, c)
    ensures StrLess(a, c)
  {
    if |a| > 0 && |b| > 0 && |c| > 0 && a[0] == b[0] && b[0] == c[0] {
      StrLessTransitive(a[1..], b[1..], c[1..]);
    }
  }

  lemma {:induction false} StrLessTotal(a: string, b: string)
    requires a != b
    ensures StrLess(a, b) || StrLess(b, a)
  {
    if |a| > 0 && |b| > 0 && a[0] == b[0] {
      assert a == [a[0]] + a[1..] && b == [b[0]] + b[1..];
      StrLessTotal(a[1..], b[1..]);
    }
  }
}
