/** The JavaScript string operations the sources rely on, over `string`
    (a sequence of Unicode scalar values): `startsWith`/`endsWith`, `indexOf`,
    `replace` with a string pattern (first occurrence only), `split` on one
    character, global single-character replacement, and the UTF-16 / UTF-8
    views behind `.length`, `charCodeAt` and `Buffer.from`. */
module Strings {
  import opened Wrappers

  predicate IsPrefix(pre: string, s: string)
  {
    |pre| <= |s| && s[..|pre|] == pre
  }

  predicate EndsWith(s: string, suffix: string)
  {
    |suffix| <= |s| && s[|s| - |suffix|..] == suffix
  }

  /** `s.indexOf(pat)`: the first position at which `pat` occurs in `s`. */
  function IndexOf(s: string, pat: string): (r: Option<nat>)
    ensures r.Some? ==> r.value + |pat| <= |s| && IsPrefix(pat, s[r.value..])
    ensures r.Some? ==> forall j :: 0 <= j < r.value ==> !IsPrefix(pat, s[j..])
    ensures r.None? ==> forall j :: 0 <= j <= |s| ==> !IsPrefix(pat, s[j..])
    decreases |s|
  {
    if IsPrefix(pat, s) then Some(0)
    else if |s| == 0 then None
    else
      var tail := IndexOf(s[1..], pat);
      assert forall j :: 1 <= j <= |s| ==> s[j..] == s[1..][j - 1..];
      match tail
      case None => None
      case Some(i) => Some(i + 1)
  }

  /** `s.replace(pat, rep)` with a string pattern: only the FIRST occurrence
      of `pat` is replaced; without an occurrence `s` is returned as is. */
  function ReplaceFirst(s: string, pat: string, rep: string): string
  {
    match IndexOf(s, pat)
    case None => s
    case Some(i) => s[..i] + rep + s[i + |pat|..]
  }

  /** Removing a pattern that `s` starts with leaves exactly the rest. */
  lemma ReplaceFirstOfPrefix(pre: string, rest: string)
    ensures ReplaceFirst(pre + rest, pre, "") == rest
  {
    assert IsPrefix(pre, pre + rest);
    assert IndexOf(pre + rest, pre) == Some(0);
  }

  /** A pattern whose first character does not occur in `s` is first found
      right after `s`, so removing it from `s + pat` gives back `s`. */
  lemma ReplaceFirstOfSuffix(s: string, pat: string)
    requires |pat| > 0 && pat[0] !in s
    ensures ReplaceFirst(s + pat, pat, "") == s
  {
    var t := s + pat;
    forall j | 0 <= j < |s|
      ensures !IsPrefix(pat, t[j..])
    {
      assert t[j..][0] == s[j];
    }
    assert t[|s|..] == pat;
    match IndexOf(t, pat)
    case None =>
      assert IsPrefix(pat, t[|s|..]);
    case Some(i) =>
      assert i == |s|;
      assert t[..i] == s;
  }

  /** `s.split(sep)` for a one-character separator. */
  function Split(s: string, sep: char): (parts: seq<string>)
    ensures |parts| >= 1
    ensures forall k :: 0 <= k < |parts| ==> sep !in parts[k]
    decreases |s|
  {
    if |s| == 0 then [""]
    else
      var rest := Split(s[1..], sep);
      if s[0] == sep then [""] + rest
      else [[s[0]] + rest[0]] + rest[1..]
  }

  /** `parts.join(sep)`. */
  function Join(parts: seq<string>, sep: char): string
    decreases |parts|
  {
    if |parts| == 0 then ""
    else if |parts| == 1 then parts[0]
    else parts[0] + [sep] + Join(parts[1..], sep)
  }

  /** Joining the pieces of a split gives back the original string. */
  lemma {:induction false} JoinSplit(s: string, sep: char)
    ensures Join(Split(s, sep), sep) == s
    decreases |s|
  {
    if |s| > 0 {
      JoinSplit(s[1..], sep);
      var rest := Split(s[1..], sep);
      if s[0] == sep {
        assert Split(s, sep) == [""] + rest;
        assert ([""] + rest)[1..] == rest;
        assert s == [sep] + s[1..];
      } else {
        if |rest| == 1 {
          assert Split(s, sep) == [[s[0]] + rest[0]];
          assert s == [s[0]] + s[1..];
        } else {
          var parts := Split(s, sep);
          assert parts[1..] == rest[1..];
          assert Join(rest, sep) == rest[0] + [sep] + Join(rest[1..], sep);
          assert s == [s[0]] + s[1..];
        }
      }
    }
  }

  /** A string without the separator splits into itself alone. */
  lemma {:induction false} SplitWithoutSeparator(s: string, sep: char)
    requires sep !in s
    ensures Split(s, sep) == [s]
    decreases |s|
  {
    if |s| > 0 {
      assert sep !in s[1..];
      SplitWithoutSeparator(s[1..], sep);
      assert s == [s[0]] + s[1..];
    }
  }

  /** The first separator ends the first piece. */
  lemma {:induction false} SplitAtFirstSeparator(a: string, sep: char, rest: string)
    requires sep !in a
    ensures Split(a + [sep] + rest, sep) == [a] + Split(rest, sep)
    decreases |a|
  {
    var s := a + [sep] + rest;
    if |a| == 0 {
      assert s[0] == sep && s[1..] == rest;
    } else {
      assert s[1..] == a[1..] + [sep] + rest;
      assert sep !in a[1..];
      SplitAtFirstSeparator(a[1..], sep, rest);
      assert s[0] == a[0];
      assert [a[0]] + a[1..] == a;
    }
  }

  /** Splitting a join of separator-free pieces gives the pieces back. */
  lemma {:induction false} SplitJoin(parts: seq<string>, sep: char)
    requires |parts| >= 1
    requires forall k :: 0 <= k < |parts| ==> sep !in parts[k]
    ensures Split(Join(parts, sep), sep) == parts
    decreases |parts|
  {
    if |parts| == 1 {
      SplitWithoutSeparator(parts[0], sep);
    } else {
      SplitJoin(parts[1..], sep);
      SplitAtFirstSeparator(parts[0], sep, Join(parts[1..], sep));
      assert parts == [parts[0]] + parts[1..];
    }
  }

  /** `s.replace(/c/g, rep)`: every occurrence of the character `c` becomes
      `rep`, scanning the input left to right. */
  function ReplaceAllChar(s: string, c: char, rep: string): string
    decreases |s|
  {
    if |s| == 0 then ""
    else (if s[0] == c then rep else [s[0]]) + ReplaceAllChar(s[1..], c, rep)
  }

  lemma {:induction false} ReplaceAllCharAppend(a: string, b: string, c: char, rep: string)
    ensures ReplaceAllChar(a + b, c, rep) == ReplaceAllChar(a, c, rep) + ReplaceAllChar(b, c, rep)
    decreases |a|
  {
    if |a| > 0 {
      assert (a + b)[1..] == a[1..] + b;
      assert (a + b)[0] == a[0];
      ReplaceAllCharAppend(a[1..], b, c, rep);
    } else {
      assert a + b == b;
    }
  }

  lemma {:induction false} ReplaceAllCharAbsent(s: string, c: char, rep: string)
    requires c !in s
    ensures ReplaceAllChar(s, c, rep) == s
    decreases |s|
  {
    if |s| > 0 {
      assert c !in s[1..];
      ReplaceAllCharAbsent(s[1..], c, rep);
      assert s == [s[0]] + s[1..];
    }
  }

  // ---------------------------------------------------------------------
  // Code units and bytes

  /** The UTF-16 code units of one scalar value: itself below U+10000,
      otherwise a high and a low surrogate. */
  function Utf16Units(c: char): seq<int>
  {
    var v := c as int;
    if v < 0x1_0000 then [v]
    else [0xD800 + (v - 0x1_0000) / 0x400, 0xDC00 + (v - 0x1_0000) % 0x400]
  }

  /** The UTF-16 code units of a string: what `.length` counts and
      `charCodeAt` returns. */
  function Utf16(s: string): (units: seq<int>)
    ensures |units| >= |s|
    ensures forall k :: 0 <= k < |units| ==> 0 <= units[k] < 0x1_0000
    decreases |s|
  {
    if |s| == 0 then [] else Utf16Units(s[0]) + Utf16(s[1..])
  }

  /** The number of bytes of the UTF-8 encoding of one scalar value. */
  function Utf8Width(c: char): nat
  {
    if c as int < 0x80 then 1
    else if c as int < 0x800 then 2
    else if c as int < 0x1_0000 then 3
    else 4
  }

  /** `Buffer.from(s).length`: the UTF-8 byte length of `s`. */
  function Utf8Length(s: string): nat
    decreases |s|
  {
    if |s| == 0 then 0 else Utf8Width(s[0]) + Utf8Length(s[1..])
  }

  /** A scalar value needs two code units exactly when its first unit is a
      high surrogate; scalar values themselves are never surrogates. */
  lemma LeadUnitIsHighSurrogateIffAstral(c: char)
    ensures (0xD800 <= Utf16Units(c)[0] < 0xDC00) <==> c as int >= 0x1_0000
  {
    if c as int >= 0x1_0000 {
      assert (c as int - 0x1_0000) / 0x400 < 0x400;
    }
  }

  /** The first code unit of a scalar value tells how many units it takes
      and, with the second unit when there is one, which value it was. */
  lemma Utf16UnitsInjective(c: char, d: char, restC: seq<int>, restD: seq<int>)
    requires Utf16Units(c) + restC == Utf16Units(d) + restD
    ensures c == d && restC == restD
  {
    var u := Utf16Units(c) + restC;
    var vc, vd := c as int, d as int;
    assert u[0] == Utf16Units(c)[0] == Utf16Units(d)[0];
    LeadUnitIsHighSurrogateIffAstral(c);
    LeadUnitIsHighSurrogateIffAstral(d);
    if vc >= 0x1_0000 {
      assert u[1] == Utf16Units(c)[1] == Utf16Units(d)[1];
      assert vc - 0x1_0000 == (vc - 0x1_0000) / 0x400 * 0x400 + (vc - 0x1_0000) % 0x400;
      assert vd - 0x1_0000 == (vd - 0x1_0000) / 0x400 * 0x400 + (vd - 0x1_0000) % 0x400;
    }
    assert vc == vd;
    assert Utf16Units(c) == Utf16Units(d);
    assert restC == u[|Utf16Units(c)|..] == restD;
  }

  /** Different strings have different UTF-16 code units, so comparing code
      units decides string equality. */
  lemma {:induction false} Utf16Injective(a: string, b: string)
    requires Utf16(a) == Utf16(b)
    ensures a == b
    decreases |a|
  {
    if |a| > 0 && |b| > 0 {
      Utf16UnitsInjective(a[0], b[0], Utf16(a[1..]), Utf16(b[1..]));
      Utf16Injective(a[1..], b[1..]);
      assert a == [a[0]] + a[1..] && b == [b[0]] + b[1..];
    }
  }
}
