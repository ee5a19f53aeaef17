/** The JavaScript string primitives the pages rely on: `toLowerCase`
    (on ASCII letters), `trim`, `split` on one character, `includes`, and
    the decimal rendering of `Number.prototype.toString` on integers. */
module Text {

  // ---------------------------------------------------------------------------
  // toLowerCase

  predicate IsAsciiUpper(c: char) {
    'A' <= c <= 'Z'
  }

  function LowerChar(c: char): (d: char)
    ensures !IsAsciiUpper(d)
    ensures IsAsciiUpper(c) ==> d as int == c as int + 32
    ensures !IsAsciiUpper(c) ==> d == c
  {
    if IsAsciiUpper(c) then (c as int + 32) as char else c
  }

  /** `s.toLowerCase()`, restricted to the ASCII letters. */
  function ToLower(s: string): (r: string)
    ensures |r| == |s|
    ensures forall i :: 0 <= i < |s| ==> r[i] == LowerChar(s[i])
    ensures forall i :: 0 <= i < |r| ==> !IsAsciiUpper(r[i])
  {
    seq(|s|, i requires 0 <= i < |s| => LowerChar(s[i]))
  }

  /** Lower-casing twice is lower-casing once. */
  lemma ToLowerIdempotent(s: string)
    ensures ToLower(ToLower(s)) == ToLower(s)
  {
  }

  // ---------------------------------------------------------------------------
  // trim

  /** The code points `String.prototype.trim` removes: the WhiteSpace and
      LineTerminator productions of ECMAScript (section 12.2 and 12.3 of
      ECMA-262). */
  predicate IsWhitespace(c: char) {
    c == '\t' || c == '\n' || c == '\U{B}' || c == '\U{C}' || c == '\r' || c == ' '
    || c == '\U{A0}' || c == '\U{1680}' || ('\U{2000}' <= c <= '\U{200A}')
    || c == '\U{2028}' || c == '\U{2029}' || c == '\U{202F}' || c == '\U{205F}'
    || c == '\U{3000}' || c == '\U{FEFF}'
  }

  predicate AllWhitespace(s: string) {
    forall i :: 0 <= i < |s| ==> IsWhitespace(s[i])
  }

  /** No letter that `toLowerCase` changes is whitespace, and lower-casing
      never produces whitespace from a non-whitespace character. */
  lemma LowerCharKeepsWhitespace(c: char)
    ensures IsWhitespace(LowerChar(c)) == IsWhitespace(c)
  {
  }

  /** Drops the leading whitespace. */
  function TrimStart(s: string): (r: string)
    ensures |r| <= |s| && r == s[|s| - |r|..]
    ensures AllWhitespace(s[..|s| - |r|])
    ensures r != [] ==> !IsWhitespace(r[0])
    decreases |s|
  {
    if s != [] && IsWhitespace(s[0]) then
      var r := TrimStart(s[1..]);
      var cut := s[..|s| - |r|];
      assert cut[1..] == s[1..][..|s| - 1 - |r|];
      AllWhitespaceCons(cut);
      r
    else s
  }

  /** Drops the trailing whitespace. */
  function TrimEnd(s: string): (r: string)
    ensures |r| <= |s| && r == s[..|r|]
    ensures AllWhitespace(s[|r|..])
    ensures r != [] ==> !IsWhitespace(r[|r| - 1])
    decreases |s|
  {
    if s != [] && IsWhitespace(s[|s| - 1]) then
      var init := s[..|s| - 1];
      var r := TrimEnd(init);
      assert init[..|r|] == s[..|r|];
      assert s[|r|..] == init[|r|..] + [s[|s| - 1]];
      AllWhitespaceSnoc(init[|r|..], s[|s| - 1]);
      r
    else s
  }

  /** `s.trim()`: the result neither starts nor ends with whitespace, and
      it is empty exactly when `s` is all whitespace. */
  function Trim(s: string): (r: string)
    ensures |r| <= |s|
    ensures r != [] ==> !IsWhitespace(r[0]) && !IsWhitespace(r[|r| - 1])
    ensures r == [] <==> AllWhitespace(s)
  {
    var t := TrimStart(s);
    var r := TrimEnd(t);
    TrimEmptyOnlyForWhitespace(s, t, r);
    TrimEndsNotWhitespace(t, r);
    r
  }

  lemma TrimEndsNotWhitespace(t: string, r: string)
    requires t != [] ==> !IsWhitespace(t[0])
    requires r == TrimEnd(t)
    ensures r != [] ==> !IsWhitespace(r[0]) && !IsWhitespace(r[|r| - 1])
  {
    if r != [] {
      assert r[0] == t[0];
    }
  }

  lemma TrimEmptyOnlyForWhitespace(s: string, t: string, r: string)
    requires t == TrimStart(s) && r == TrimEnd(t)
    ensures r == [] <==> AllWhitespace(s)
  {
    var i := |s| - |t|;
    if t != [] {
      assert t[0] == s[i] && !IsWhitespace(s[i]);
    }
    if r == [] {
      assert t[|r|..] == t;
      assert t == [];
      forall k | 0 <= k < |s| ensures IsWhitespace(s[k]) {
        assert s[..i][k] == s[k];
      }
    }
  }

  /** Only whitespace is cut, on either side: the result is the slice of
      `s` that starts where the leading whitespace ends, with whitespace
      before and after it. */
  lemma TrimIsSlice(s: string) returns (i: nat)
    ensures i == |s| - |TrimStart(s)|
    ensures i + |Trim(s)| <= |s| && Trim(s) == s[i..i + |Trim(s)|]
    ensures AllWhitespace(s[..i]) && AllWhitespace(s[i + |Trim(s)|..])
  {
    i := TrimSliceInside(s);
    var j := TrimSliceAfter(s);
  }

  lemma TrimSliceInside(s: string) returns (i: nat)
    ensures i == |s| - |TrimStart(s)|
    ensures i + |Trim(s)| <= |s| && Trim(s) == s[i..i + |Trim(s)|]
  {
    var t := TrimStart(s);
    var r := TrimEnd(t);
    assert Trim(s) == r;
    i := |s| - |t|;
    PrefixOfSuffix(s, i, |r|);
  }

  lemma TrimSliceAfter(s: string) returns (i: nat)
    ensures i == |s| - |TrimStart(s)|
    ensures i + |Trim(s)| <= |s|
    ensures AllWhitespace(s[i + |Trim(s)|..])
  {
    var t := TrimStart(s);
    var r := TrimEnd(t);
    assert Trim(s) == r;
    i := |s| - |t|;
    SuffixOfSuffix(s, i, |r|);
  }

  lemma SuffixOfSuffix(s: string, i: nat, n: nat)
    requires i + n <= |s|
    ensures s[i..][n..] == s[i + n..]
  {
  }

  lemma PrefixOfSuffix(s: string, i: nat, n: nat)
    requires i + n <= |s|
    ensures s[i..][..n] == s[i..i + n]
  {
  }

  /** Trimming commutes with lower-casing, since lower-casing neither
      creates nor removes whitespace. */
  lemma {:induction false} TrimStartToLower(s: string)
    ensures TrimStart(ToLower(s)) == ToLower(TrimStart(s))
    decreases |s|
  {
    if s != [] {
      var tail := s[1..];
      var l := ToLower(s);
      LowerCharKeepsWhitespace(s[0]);
      assert l[0] == LowerChar(s[0]);
      assert l[1..] == ToLower(tail);
      if IsWhitespace(s[0]) {
        TrimStartToLower(tail);
      }
    }
  }

  lemma {:induction false} TrimEndToLower(s: string)
    ensures TrimEnd(ToLower(s)) == ToLower(TrimEnd(s))
    decreases |s|
  {
    if s != [] {
      var last := s[|s| - 1];
      var init := s[..|s| - 1];
      var l := ToLower(s);
      LowerCharKeepsWhitespace(last);
      assert l[|l| - 1] == LowerChar(last);
      assert l[..|l| - 1] == ToLower(init);
      if IsWhitespace(last) {
        TrimEndToLower(init);
      }
    }
  }

  lemma TrimToLower(s: string)
    ensures Trim(ToLower(s)) == ToLower(Trim(s))
  {
    TrimStartToLower(s);
    TrimEndToLower(TrimStart(s));
  }

  lemma {:induction false} TrimStartAfterWhitespace(pad: string, s: string)
    requires AllWhitespace(pad)
    ensures TrimStart(pad + s) == TrimStart(s)
    decreases |pad|
  {
    if pad != [] {
      var x := pad + s;
      var rest := pad[1..];
      assert x[0] == pad[0];
      assert x[1..] == rest + s;
      assert AllWhitespace(rest) by {
        forall i | 0 <= i < |rest| ensures IsWhitespace(rest[i]) { assert rest[i] == pad[i + 1]; }
      }
      TrimStartAfterWhitespace(rest, s);
    } else {
      assert pad + s == s;
    }
  }

  lemma {:induction false} TrimEndBeforeWhitespace(s: string, pad: string)
    requires AllWhitespace(pad)
    ensures TrimEnd(s + pad) == TrimEnd(s)
    decreases |pad|
  {
    if pad != [] {
      assert (s + pad)[..|s + pad| - 1] == s + pad[..|pad| - 1];
      TrimEndBeforeWhitespace(s, pad[..|pad| - 1]);
    } else {
      assert s + pad == s;
    }
  }

  lemma {:induction false} TrimStartAppend(s: string, pad: string)
    requires AllWhitespace(pad)
    ensures TrimStart(s + pad) == if AllWhitespace(s) then [] else TrimStart(s) + pad
    decreases |s|
  {
    if s == [] {
      assert s + pad == pad + [];
      TrimStartAfterWhitespace(pad, []);
    } else {
      var x := s + pad;
      var tail := s[1..];
      assert x[0] == s[0];
      assert x[1..] == tail + pad;
      TrimStartAppend(tail, pad);
      AllWhitespaceCons(s);
    }
  }

  lemma AllWhitespaceSnoc(s: string, c: char)
    requires AllWhitespace(s) && IsWhitespace(c)
    ensures AllWhitespace(s + [c])
  {
    assert forall i :: 0 <= i < |s| ==> (s + [c])[i] == s[i];
  }

  lemma AllWhitespaceCons(s: string)
    requires s != []
    ensures AllWhitespace(s) <==> IsWhitespace(s[0]) && AllWhitespace(s[1..])
  {
    assert forall i :: 1 <= i < |s| ==> s[i] == s[1..][i - 1];
  }

  /** Whitespace added on both sides is trimmed away again. */
  lemma TrimPadding(s: string, pad: string)
    requires AllWhitespace(pad)
    ensures Trim(pad + s + pad) == Trim(s)
  {
    assert pad + s + pad == pad + (s + pad);
    TrimStartAfterWhitespace(pad, s + pad);
    TrimStartAppend(s, pad);
    if !AllWhitespace(s) {
      TrimEndBeforeWhitespace(TrimStart(s), pad);
    }
  }

  // ---------------------------------------------------------------------------
  // split and join on one separator character

  /** The inverse of `Split`: the parts with the separator between each two. */
  function Join(parts: seq<string>, sep: char): (s: string)
    decreases |parts|
  {
    if parts == [] then ""
    else if |parts| == 1 then parts[0]
    else parts[0] + [sep] + Join(parts[1..], sep)
  }

  /** `s.split(sep)` for a one-character separator: never empty (even the
      empty string splits into one empty part), no part holds the
      separator, and joining the parts gives back `s`. */
  function Split(s: string, sep: char): (parts: seq<string>)
    ensures |parts| >= 1
    ensures forall k :: 0 <= k < |parts| ==> sep !in parts[k]
    ensures Join(parts, sep) == s
    ensures |parts| == 1 <==> sep !in s
    decreases |s|
  {
    if s == [] then [""]
    else
      var rest := Split(s[1..], sep);
      if s[0] == sep then
        SplitStepAtSeparator(s, sep, rest);
        [""] + rest
      else
        SplitStepInPart(s, sep, rest);
        [[s[0]] + rest[0]] + rest[1..]
  }

  /** A leading separator closes an empty first part. */
  lemma SplitStepAtSeparator(s: string, sep: char, rest: seq<string>)
    requires s != [] && s[0] == sep
    requires |rest| >= 1 && Join(rest, sep) == s[1..]
    requires forall k :: 0 <= k < |rest| ==> sep !in rest[k]
    ensures forall k :: 0 <= k < |[""] + rest| ==> sep !in ([""] + rest)[k]
    ensures Join([""] + rest, sep) == s
    ensures sep in s
  {
    var parts := [""] + rest;
    assert parts[1..] == rest;
    assert forall k :: 1 <= k < |parts| ==> parts[k] == rest[k - 1];
    assert s == [sep] + s[1..];
  }

  /** Any other leading character joins the first part. */
  lemma SplitStepInPart(s: string, sep: char, rest: seq<string>)
    requires s != [] && s[0] != sep
    requires |rest| >= 1 && Join(rest, sep) == s[1..]
    requires forall k :: 0 <= k < |rest| ==> sep !in rest[k]
    requires |rest| == 1 <==> sep !in s[1..]
    ensures var parts := [[s[0]] + rest[0]] + rest[1..];
            (forall k :: 0 <= k < |parts| ==> sep !in parts[k])
            && Join(parts, sep) == s && (|parts| == 1 <==> sep !in s)
  {
    var parts := [[s[0]] + rest[0]] + rest[1..];
    JoinFirstChar(s[0], rest, sep);
    SeparatorAfterFirst(s, sep);
    assert sep !in [s[0]] + rest[0];
    assert forall k :: 1 <= k < |parts| ==> parts[k] == rest[k];
  }

  lemma SeparatorAfterFirst(s: string, sep: char)
    requires s != [] && s[0] != sep
    ensures s == [s[0]] + s[1..]
    ensures sep in s <==> sep in s[1..]
  {
    assert s == [s[0]] + s[1..];
  }

  /** Splitting a join of separator-free parts gives the parts back. */
  lemma {:induction false} SplitJoin(parts: seq<string>, sep: char)
    requires |parts| >= 1
    requires forall k :: 0 <= k < |parts| ==> sep !in parts[k]
    ensures Split(Join(parts, sep), sep) == parts
    decreases |parts|, |parts[0]|
  {
    if parts[0] == [] {
      if |parts| > 1 {
        var tail := parts[1..];
        assert forall k :: 0 <= k < |tail| ==> tail[k] == parts[k + 1];
        SplitJoin(tail, sep);
        SplitJoinEmptyHead(parts, sep);
      }
    } else {
      ShorterPartsSeparatorFree(parts, sep);
      SplitJoin([parts[0][1..]] + parts[1..], sep);
      SplitJoinCharHead(parts, sep);
    }
  }

  lemma SplitJoinEmptyHead(parts: seq<string>, sep: char)
    requires |parts| > 1 && parts[0] == []
    requires Split(Join(parts[1..], sep), sep) == parts[1..]
    ensures Split(Join(parts, sep), sep) == parts
  {
    var tail := parts[1..];
    assert Join(parts, sep) == [sep] + Join(tail, sep);
    SplitCons(sep, Join(tail, sep), sep);
    assert parts == [""] + tail;
  }

  lemma SplitJoinCharHead(parts: seq<string>, sep: char)
    requires |parts| >= 1 && parts[0] != [] && parts[0][0] != sep
    requires Split(Join([parts[0][1..]] + parts[1..], sep), sep) == [parts[0][1..]] + parts[1..]
    ensures Split(Join(parts, sep), sep) == parts
  {
    var c := parts[0][0];
    var shorter := [parts[0][1..]] + parts[1..];
    JoinFirstChar(c, shorter, sep);
    SplitCons(c, Join(shorter, sep), sep);
    assert shorter[0] == parts[0][1..] && shorter[1..] == parts[1..];
    assert parts[0] == [c] + shorter[0];
    assert parts == [[c] + shorter[0]] + shorter[1..];
  }

  /** One step of `Split`: a leading separator starts a new part, any other
      leading character joins the first part. */
  lemma SplitCons(c: char, s: string, sep: char)
    ensures c == sep ==> Split([c] + s, sep) == [""] + Split(s, sep)
    ensures c != sep ==> Split([c] + s, sep) == [[c] + Split(s, sep)[0]] + Split(s, sep)[1..]
  {
    assert ([c] + s)[1..] == s;
  }

  lemma ShorterPartsSeparatorFree(parts: seq<string>, sep: char)
    requires |parts| >= 1 && parts[0] != []
    requires forall k :: 0 <= k < |parts| ==> sep !in parts[k]
    ensures parts[0][0] != sep
    ensures var shorter := [parts[0][1..]] + parts[1..];
            forall k :: 0 <= k < |shorter| ==> sep !in shorter[k]
  {
    var shorter := [parts[0][1..]] + parts[1..];
    assert sep !in parts[0];
    assert parts[0] == [parts[0][0]] + parts[0][1..];
    assert forall k :: 1 <= k < |shorter| ==> shorter[k] == parts[k];
  }

  /** Prepending a character to the first part prepends it to the join. */
  lemma JoinFirstChar(c: char, parts: seq<string>, sep: char)
    requires |parts| >= 1
    ensures Join([[c] + parts[0]] + parts[1..], sep) == [c] + Join(parts, sep)
  {
    var longer := [[c] + parts[0]] + parts[1..];
    assert longer[1..] == parts[1..];
    if |parts| > 1 {
      assert Join(parts, sep) == parts[0] + [sep] + Join(parts[1..], sep);
    }
  }

  /** The first part of a split is everything before the first separator,
      and the remaining parts are the split of what follows it. */
  lemma SplitAtFirst(s: string, sep: char, i: nat)
    requires i < |s| && s[i] == sep && sep !in s[..i]
    ensures Split(s, sep) == [s[..i]] + Split(s[i + 1..], sep)
  {
    var tail := Split(s[i + 1..], sep);
    var parts := [s[..i]] + tail;
    assert parts[1..] == tail;
    assert s == s[..i] + [sep] + s[i + 1..];
    assert Join(parts, sep) == s;
    assert forall k :: 0 <= k < |parts| ==> sep !in parts[k] by {
      forall k | 0 <= k < |parts| ensures sep !in parts[k] {
        if k > 0 { assert parts[k] == tail[k - 1]; }
      }
    }
    SplitJoin(parts, sep);
  }

  /** The first part of a split ends at the first separator, or at the end. */
  lemma SplitFirstPart(s: string, sep: char, k: nat)
    requires k <= |s| && sep !in s[..k]
    requires k == |s| || s[k] == sep
    ensures Split(s, sep)[0] == s[..k]
  {
    if k < |s| {
      SplitAtFirst(s, sep, k);
    } else {
      assert s[..k] == s;
    }
  }

  /** The first two parts of a split, for a string with a separator at
      `first` (the first one) and the next one at `second` (or none). */
  lemma SplitFirstTwo(s: string, sep: char, first: nat, second: nat)
    requires first < second <= |s|
    requires s[first] == sep && sep !in s[..first]
    requires sep !in s[first + 1..second]
    requires second == |s| || s[second] == sep
    ensures |Split(s, sep)| >= 2
    ensures Split(s, sep)[0] == s[..first] && Split(s, sep)[1] == s[first + 1..second]
  {
    SplitAtFirst(s, sep, first);
    SplitSecondPart(s, sep, first, second);
  }

  lemma SplitSecondPart(s: string, sep: char, first: nat, second: nat)
    requires first < second <= |s|
    requires sep !in s[first + 1..second]
    requires second == |s| || s[second] == sep
    ensures Split(s[first + 1..], sep)[0] == s[first + 1..second]
  {
    var rest := s[first + 1..];
    var k := second - first - 1;
    assert rest[..k] == s[first + 1..second];
    assert k == |rest| || rest[k] == sep;
    SplitFirstPart(rest, sep, k);
  }

  // ---------------------------------------------------------------------------
  // includes

  predicate OccursAt(haystack: string, needle: string, i: nat) {
    i + |needle| <= |haystack| && haystack[i..i + |needle|] == needle
  }

  /** `haystack.includes(needle)`; the empty needle occurs everywhere. */
  predicate Contains(haystack: string, needle: string) {
    exists i: nat :: i <= |haystack| && OccursAt(haystack, needle, i)
  }

  // ---------------------------------------------------------------------------
  // decimal rendering

  predicate IsDigit(c: char) {
    '0' <= c <= '9'
  }

  function DigitChar(d: nat): (c: char)
    requires d < 10
    ensures IsDigit(c) && c as int - '0' as int == d
  {
    ('0' as int + d) as char
  }

  /** The value a string of decimal digits denotes. */
  function DigitsValue(s: string): nat
    requires forall i :: 0 <= i < |s| ==> IsDigit(s[i])
    decreases |s|
  {
    if s == [] then 0
    else
      assert IsDigit(s[|s| - 1]);
      DigitsValue(s[..|s| - 1]) * 10 + (s[|s| - 1] as int - '0' as int)
  }

  /** `n.toString()` for a non-negative integer: decimal digits with no
      leading zero except for `"0"` itself. */
  function NatToDecimal(n: nat): (s: string)
    ensures |s| >= 1
    ensures forall i :: 0 <= i < |s| ==> IsDigit(s[i])
    ensures |s| > 1 ==> s[0] != '0'
    decreases n
  {
    if n < 10 then [DigitChar(n)] else NatToDecimal(n / 10) + [DigitChar(n % 10)]
  }

  /** Reading the digits back gives the number. */
  lemma {:induction false} NatToDecimalValue(n: nat)
    ensures DigitsValue(NatToDecimal(n)) == n
    decreases n
  {
    if n >= 10 {
      NatToDecimalValue(n / 10);
      var s := NatToDecimal(n);
      assert s[..|s| - 1] == NatToDecimal(n / 10);
    }
  }

  /** The text `toString` gives an integer: an optional minus sign, then at
      least one digit, with no leading zero and no `-0`. */
  predicate IsCanonicalDecimal(s: string) {
    var digits := if s != [] && s[0] == '-' then s[1..] else s;
    && digits != []
    && (forall i :: 0 <= i < |digits| ==> IsDigit(digits[i]))
    && (|digits| > 1 ==> digits[0] != '0')
    && (s != [] && s[0] == '-' ==> digits != "0")
  }

  /** `n.toString()` for an integer, with a leading minus sign when negative;
      reading the text back gives `n`. */
  function IntToDecimal(n: int): (s: string)
    ensures IsCanonicalDecimal(s)
    ensures s[0] == '-' <==> n < 0
    ensures DecimalToInt(s) == n
  {
    if n < 0 then
      var digits := NatToDecimal(-n);
      NatToDecimalValue(-n);
      var s := "-" + digits;
      assert s[1..] == digits;
      assert DigitsValue("0") == 0;
      s
    else
      NatToDecimalValue(n);
      assert IsDigit(NatToDecimal(n)[0]);
      NatToDecimal(n)
  }

  /** The inverse of `IntToDecimal`. */
  function DecimalToInt(s: string): (n: int)
  {
    if s != [] && s[0] == '-' && forall i :: 1 <= i < |s| ==> IsDigit(s[i]) then 0 - DigitsValue(s[1..])
    else if forall i :: 0 <= i < |s| ==> IsDigit(s[i]) then DigitsValue(s)
    else 0
  }

  /** A digit string that does not start with `0` denotes at least 1. */
  lemma {:induction false} LeadingDigitPositive(s: string)
    requires s != [] && s[0] != '0'
    requires forall i :: 0 <= i < |s| ==> IsDigit(s[i])
    ensures DigitsValue(s) >= 1
    decreases |s|
  {
    if |s| > 1 {
      var init := s[..|s| - 1];
      assert init[0] == s[0];
      LeadingDigitPositive(init);
    }
  }

  /** Two digit strings without a leading zero that denote the same number
      are the same string. */
  lemma {:induction false} DigitsValueInjective(a: string, b: string)
    requires a != [] && b != []
    requires forall i :: 0 <= i < |a| ==> IsDigit(a[i])
    requires forall i :: 0 <= i < |b| ==> IsDigit(b[i])
    requires |a| > 1 ==> a[0] != '0'
    requires |b| > 1 ==> b[0] != '0'
    requires DigitsValue(a) == DigitsValue(b)
    ensures a == b
    decreases |a|
  {
    var initA, initB := a[..|a| - 1], b[..|b| - 1];
    if |b| > 1 {
      assert initB[0] == b[0];
      LeadingDigitPositive(initB);
    }
    if |a| > 1 {
      assert initA[0] == a[0];
      LeadingDigitPositive(initA);
    }
    if |a| > 1 && |b| > 1 {
      DigitsValueInjective(initA, initB);
      assert a == initA + [a[|a| - 1]] && b == initB + [b[|b| - 1]];
    }
  }

  /** A canonical text is its sign followed by its digits, and it reads back
      as the value of the digits with that sign; a negative one denotes at
      least 1 in magnitude. */
  lemma CanonicalDecimalParts(s: string) returns (digits: string)
    requires IsCanonicalDecimal(s)
    ensures digits == if s[0] == '-' then s[1..] else s
    ensures digits != [] && forall i :: 0 <= i < |digits| ==> IsDigit(digits[i])
    ensures |digits| > 1 ==> digits[0] != '0'
    ensures DecimalToInt(s) == if s[0] == '-' then 0 - DigitsValue(digits) else DigitsValue(digits)
    ensures s[0] == '-' ==> DigitsValue(digits) >= 1
  {
    digits := if s[0] == '-' then s[1..] else s;
    if s[0] == '-' {
      assert forall i :: 1 <= i < |s| ==> s[i] == digits[i - 1];
      if digits[0] != '0' {
        LeadingDigitPositive(digits);
      }
    } else {
      assert forall i :: 0 <= i < |s| ==> IsDigit(s[i]);
    }
  }

  /** The text `toString` gives is the only canonical text that reads back
      as its value. */
  lemma CanonicalDecimalUnique(s: string, t: string)
    requires IsCanonicalDecimal(s) && IsCanonicalDecimal(t)
    requires DecimalToInt(s) == DecimalToInt(t)
    ensures s == t
  {
    var ds := CanonicalDecimalParts(s);
    var dt := CanonicalDecimalParts(t);
    assert s[0] == '-' <==> t[0] == '-';
    DigitsValueInjective(ds, dt);
    if s[0] == '-' {
      assert s == [s[0]] + ds && t == [t[0]] + dt;
    }
  }
}
