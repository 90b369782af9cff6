/**
 * String helpers shared by both sides of the `/chat` wire: substring search
 * (JavaScript `includes`, Python `in` on strings), whitespace stripping for a
 * given whitespace class, decimal rendering of integers and joining.
 */
module Text {
  import opened Wrappers


  /** `sub` occurs in `s` (JavaScript `s.includes(sub)`, Python `sub in s`). */
  predicate Contains(s: string, sub: string)
    decreases |s|
  {
    sub <= s || (s != [] && Contains(s[1..], sub))
  }

  /** `sub` occurs in `s` starting at index `i`. */
  predicate OccursAt(s: string, sub: string, i: int)
  {
    0 <= i && i + |sub| <= |s| && s[i..i + |sub|] == sub
  }

  /** An occurrence at 0 is a prefix. */
  lemma OccursAtStart(s: string, sub: string)
    ensures OccursAt(s, sub, 0) <==> sub <= s
  {
  }

  /** An occurrence past the first character is an occurrence in the tail. */
  lemma OccursInTail(s: string, sub: string, i: int)
    requires s != [] && i >= 1
    ensures OccursAt(s, sub, i) <==> OccursAt(s[1..], sub, i - 1)
  {
    if i + |sub| <= |s| {
      var t := s[1..];
      assert t[i - 1..] == s[i..];
      assert t[i - 1..i - 1 + |sub|] == t[i - 1..][..|sub|];
      assert s[i..i + |sub|] == s[i..][..|sub|];
    }
  }

  /** Contains agrees with the positional definition of an occurrence. */
  lemma {:induction false} ContainsIffOccurs(s: string, sub: string)
    ensures Contains(s, sub) <==> exists i :: OccursAt(s, sub, i)
    decreases |s|
  {
    if sub <= s {
      OccursAtStart(s, sub);
    } else if s != [] {
      ContainsIffOccurs(s[1..], sub);
      if exists i :: OccursAt(s, sub, i) {
        var i :| OccursAt(s, sub, i);
        OccursAtStart(s, sub);
        OccursInTail(s, sub, i);
      }
      if exists j :: OccursAt(s[1..], sub, j) {
        var j :| OccursAt(s[1..], sub, j);
        OccursInTail(s, sub, j + 1);
      }
    }
  }

  /** Drops the leading characters of `s` that satisfy `isSpace`. */
  function TrimStart(s: string, isSpace: char -> bool): string
    decreases |s|
  {
    if s != [] && isSpace(s[0]) then TrimStart(s[1..], isSpace) else s
  }

  /** Drops the trailing characters of `s` that satisfy `isSpace`. */
  function TrimEnd(s: string, isSpace: char -> bool): string
    decreases |s|
  {
    if s != [] && isSpace(s[|s| - 1]) then TrimEnd(s[..|s| - 1], isSpace) else s
  }

  /** TrimStart keeps a suffix, drops only spaces, and stops at a non-space. */
  lemma {:induction false} TrimStartSpec(s: string, isSpace: char -> bool)
    ensures var r := TrimStart(s, isSpace);
      && |r| <= |s| && r == s[|s| - |r|..]
      && (forall k | 0 <= k < |s| - |r| :: isSpace(s[k]))
      && (r != [] ==> !isSpace(r[0]))
    decreases |s|
  {
    if s != [] && isSpace(s[0]) {
      TrimStartSpec(s[1..], isSpace);
    }
  }

  /** TrimEnd keeps a prefix, drops only spaces, and stops at a non-space. */
  lemma {:induction false} TrimEndSpec(s: string, isSpace: char -> bool)
    ensures var r := TrimEnd(s, isSpace);
      && |r| <= |s| && r == s[..|r|]
      && (forall k | |r| <= k < |s| :: isSpace(s[k]))
      && (r != [] ==> !isSpace(r[|r| - 1]))
    decreases |s|
  {
    if s != [] && isSpace(s[|s| - 1]) {
      TrimEndSpec(s[..|s| - 1], isSpace);
    }
  }

  /**
   * Removes whitespace (in the sense of `isSpace`) from both ends:
   * JavaScript `String.prototype.trim` and Python `str.strip()` differ only
   * in the whitespace class they pass.
   */
  function Strip(s: string, isSpace: char -> bool): (r: string)
    ensures r != [] ==> !isSpace(r[0]) && !isSpace(r[|r| - 1])
    ensures r == [] <==> forall k | 0 <= k < |s| :: isSpace(s[k])
    ensures (s == [] || (!isSpace(s[0]) && !isSpace(s[|s| - 1]))) ==> r == s
  {
    TrimStartSpec(s, isSpace);
    TrimEndSpec(TrimStart(s, isSpace), isSpace);
    TrimEnd(TrimStart(s, isSpace), isSpace)
  }

  /** Strip is TrimEnd after TrimStart. */
  lemma StripIsTrim(s: string, isSpace: char -> bool)
    ensures Strip(s, isSpace) == TrimEnd(TrimStart(s, isSpace), isSpace)
  {
  }

  /**
   * What Strip keeps (TrimEnd after TrimStart, by StripIsTrim) is the run of
   * `s` between a leading and a trailing run of spaces, returned here by its
   * start.
   */
  lemma {:induction false} StripFrame(s: string, isSpace: char -> bool) returns (i: nat)
    ensures var r := TrimEnd(TrimStart(s, isSpace), isSpace);
      && i + |r| <= |s| && s[i..i + |r|] == r
      && (forall k | 0 <= k < i :: isSpace(s[k]))
      && (forall k | i + |r| <= k < |s| :: isSpace(s[k]))
  {
    var t := TrimStart(s, isSpace);
    var r := TrimEnd(t, isSpace);
    assert |t| <= |s| && t == s[|s| - |t|..] && forall k | 0 <= k < |s| - |t| :: isSpace(s[k]) by {
      TrimStartSpec(s, isSpace);
    }
    assert |r| <= |t| && r == t[..|r|] && forall k | |r| <= k < |t| :: isSpace(t[k]) by {
      TrimEndSpec(t, isSpace);
    }
    i := |s| - |t|;
    InnerFrame(s, t, r, isSpace);
  }

  /**
   * A prefix `r` of a suffix `t` of `s` sits at `|s| - |t|` in `s`, and the
   * spaces that follow it in `t` follow it in `s`.
   */
  lemma InnerFrame(s: string, t: string, r: string, isSpace: char -> bool)
    requires |t| <= |s| && t == s[|s| - |t|..] && |r| <= |t| && r == t[..|r|]
    requires forall k | |r| <= k < |t| :: isSpace(t[k])
    ensures var i := |s| - |t|;
      && s[i..i + |r|] == r
      && forall k | i + |r| <= k < |s| :: isSpace(s[k])
  {
    var i := |s| - |t|;
    assert s[i..][..|r|] == s[i..i + |r|];
    forall k | i + |r| <= k < |s|
      ensures isSpace(s[k])
    {
      assert s[k] == t[k - i];
    }
  }

  /** Stripping twice is stripping once. */
  lemma StripIdempotent(s: string, isSpace: char -> bool)
    ensures Strip(Strip(s, isSpace), isSpace) == Strip(s, isSpace)
  {
  }

  /** The decimal digit for 0 <= d < 10. */
  function Digit(d: nat): (c: char)
    requires d < 10
    ensures '0' <= c <= '9' && c as int - '0' as int == d
  {
    ['0', '1', '2', '3', '4', '5', '6', '7', '8', '9'][d]
  }

  /** Decimal notation of a natural number, without leading zeros. */
  function NatToString(n: nat): (s: string)
    ensures s != [] && forall k | 0 <= k < |s| :: '0' <= s[k] <= '9'
    ensures s[0] == '0' ==> n == 0
  {
    if n < 10 then [Digit(n)] else NatToString(n / 10) + [Digit(n % 10)]
  }

  /** The value a string of decimal digits denotes. */
  function DecimalValue(s: string): nat
    requires forall k | 0 <= k < |s| :: '0' <= s[k] <= '9'
  {
    if s == [] then 0 else 10 * DecimalValue(s[..|s| - 1]) + (s[|s| - 1] as int - '0' as int)
  }

  /** NatToString loses nothing: reading its digits back gives the number. */
  lemma {:induction false} NatToStringRoundTrip(n: nat)
    ensures DecimalValue(NatToString(n)) == n
  {
    if n >= 10 {
      NatToStringRoundTrip(n / 10);
      var s := NatToString(n);
      assert s[..|s| - 1] == NatToString(n / 10);
    }
  }

  /** How both JavaScript and Python print an integer: an optional minus sign and the digits. */
  function IntToString(n: int): (s: string)
    ensures s != []
    ensures n >= 0 ==> s == NatToString(n)
    ensures n < 0 ==> s == "-" + NatToString(-n)
  {
    if n < 0 then "-" + NatToString(-n) else NatToString(n)
  }

  /** `parts.join(sep)`: the parts in order with `sep` between neighbours. */
  function Join(parts: seq<string>, sep: string): (r: string)
  {
    if parts == [] then [] else if |parts| == 1 then parts[0] else parts[0] + sep + Join(parts[1..], sep)
  }

  /** Joining one more part appends the separator and that part. */
  lemma {:induction false} JoinAppend(parts: seq<string>, p: string, sep: string)
    requires parts != []
    ensures Join(parts + [p], sep) == Join(parts, sep) + sep + p
  {
    if |parts| > 1 {
      JoinAppend(parts[1..], p, sep);
      assert (parts + [p])[1..] == parts[1..] + [p];
    }
  }

  /** The index of the first `c` in `s`, if any. */
  function FirstIndex(s: string, c: char): (r: Option<nat>)
    ensures r.Some? ==> r.value < |s| && s[r.value] == c && c !in s[..r.value]
    ensures r.None? <==> c !in s
  {
    if s == [] then None
    else if s[0] == c then Some(0)
    else
      var r := FirstIndex(s[1..], c);
      if r.None? then None else Some(r.value + 1)
  }

  /** The first `c` of `a + b` lies in `b` when `a` has none. */
  lemma {:induction false} FirstIndexAfter(a: string, b: string, c: char)
    requires c !in a && b != [] && b[0] == c
    ensures FirstIndex(a + b, c) == Some(|a|)
  {
    if a == [] {
      assert a + b == b;
    } else {
      assert (a + b)[0] == a[0] && (a + b)[1..] == a[1..] + b;
      FirstIndexAfter(a[1..], b, c);
    }
  }
}
